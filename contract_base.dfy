/** What every contract method sees: addresses, the transaction context, and
    the ways a call can fail. A failed call reverts every state change. */
module ContractBase {
  import opened CheckedMath

  datatype Address = Address(id: nat)

  /** `Assertion` is a failed `Assert` with its message; `NullReference`,
      `Overflow` and `InvalidOperation` are the .NET exceptions; `Rejected` is a
      check carried out by contract code that is not part of this model. */
  datatype ContractError =
    | Assertion(message: string)
    | NullReference
    | Overflow
    | InvalidOperation
    | Rejected(check: string)

  /** `Context.Sender`, `Context.ChainId` and `Context.CurrentBlockTime` in seconds. */
  datatype Context = Context(sender: Address, chainId: Int32, currentBlockTime: Int64)
}
