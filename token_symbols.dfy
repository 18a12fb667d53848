/** The symbol rules of the MultiToken contract's NFT support
    (contract/AElf.Contracts.MultiToken/TokenContract_NFT_Actions.cs): an NFT is
    named `"<collection>-<item id>"`, its collection `"<collection>-0"`, and an
    allowance can be granted for one symbol, for all items of a collection
    (`"<collection>-*"`) or for every token (`"*"`). */
module TokenSymbols {
  import opened Wrappers
  import opened Strings

  /** `TokenContractConstants.NFTSymbolSeparator`. */
  const NftSymbolSeparator: char := '-'
  /** `TokenContractConstants.GlobalAllowanceIdentifier`. */
  const GlobalAllowanceIdentifier: char := '*'
  const InvalidNftSymbolInput: string := "Invalid NFT Symbol Input"

  /** `GetGlobalAllowanceSymbol`: `"*"`. */
  function GetGlobalAllowanceSymbol(): (r: string)
    ensures r == [GlobalAllowanceIdentifier]
  {
    [GlobalAllowanceIdentifier]
  }

  /** `GetNftGlobalAllowanceSymbol`: the text before the first separator, then `"-*"`. */
  function GetNftGlobalAllowanceSymbol(sourceSymbol: string): (r: string)
    ensures |r| >= 2 && |r| - 2 <= |sourceSymbol|
    ensures r[|r| - 2..] == [NftSymbolSeparator, GlobalAllowanceIdentifier]
    ensures r[..|r| - 2] == sourceSymbol[..|r| - 2]
    ensures NftSymbolSeparator !in r[..|r| - 2]
    ensures |r| - 2 < |sourceSymbol| ==> sourceSymbol[|r| - 2] == NftSymbolSeparator
  {
    var prefix := Split(sourceSymbol, NftSymbolSeparator)[0];
    PrefixIsHead(sourceSymbol, NftSymbolSeparator);
    var r := prefix + [NftSymbolSeparator, GlobalAllowanceIdentifier];
    assert r[..|r| - 2] == prefix;
    r
  }

  /** The first piece of a split is the text before the first separator. */
  lemma PrefixIsHead(s: string, sep: char)
    ensures var p := Split(s, sep)[0];
      |p| <= |s| && p == s[..|p|] && (|p| < |s| ==> s[|p|] == sep)
  {
  }

  /** `GetNftCollectionSymbol`: `None` (C# `null`) for a symbol without a
      separator and for a collection symbol itself; otherwise the symbol of the
      item's collection. An item id with a character `isValidItemIdChar`
      refuses, or a second separator, fails the contract assertion. */
  function GetNftCollectionSymbol(inputSymbol: string, isValidItemIdChar: char -> bool): (r: Result<Option<string>, string>)
    ensures NftSymbolSeparator !in inputSymbol ==> r == Ok(None)
    ensures CountChar(inputSymbol, NftSymbolSeparator) > 1 ==> r == Err(InvalidNftSymbolInput)
    ensures r.Err? ==> r.error == InvalidNftSymbolInput
    ensures r.Ok? && r.value.Some? ==>
      var c := r.value.value;
      |c| >= 2 && c[|c| - 2..] == [NftSymbolSeparator, '0'] && c != inputSymbol
  {
    var words := Split(inputSymbol, NftSymbolSeparator);
    SplitLength(inputSymbol, NftSymbolSeparator);
    CountPositiveWhenPresent(inputSymbol, NftSymbolSeparator);
    if |words| == 1 then Ok(None)
    else if !(|words| == 2 && forall c | c in words[1] :: isValidItemIdChar(c)) then Err(InvalidNftSymbolInput)
    else
      var collection := words[0] + [NftSymbolSeparator, '0'];
      assert collection[|collection| - 2..] == [NftSymbolSeparator, '0'];
      if inputSymbol == collection then Ok(None) else Ok(Some(collection))
  }

  /** An item `"<x>-<id>"` with a valid id belongs to the collection `"<x>-0"`;
      the collection `"<x>-0"` itself has none; an invalid id is refused. */
  lemma CollectionOfItem(x: string, id: string, isValidItemIdChar: char -> bool)
    requires NftSymbolSeparator !in x && NftSymbolSeparator !in id
    ensures GetNftCollectionSymbol(x + [NftSymbolSeparator] + id, isValidItemIdChar) ==
      if !(forall c | c in id :: isValidItemIdChar(c)) then Err(InvalidNftSymbolInput)
      else if id == "0" then Ok(None)
      else Ok(Some(x + [NftSymbolSeparator, '0']))
  {
    SplitPair(x, id, NftSymbolSeparator);
    var s := x + [NftSymbolSeparator] + id;
    if id != "0" {
      assert s[|x| + 1..] == id;
      assert (x + [NftSymbolSeparator, '0'])[|x| + 1..] == "0";
    } else {
      assert s == x + [NftSymbolSeparator, '0'];
    }
  }

  /** An item and its collection fall under the same collection-wide allowance. */
  lemma ItemSharesCollectionAllowance(item: string, isValidItemIdChar: char -> bool)
    requires GetNftCollectionSymbol(item, isValidItemIdChar).Ok?
    requires GetNftCollectionSymbol(item, isValidItemIdChar).value.Some?
    ensures GetNftGlobalAllowanceSymbol(GetNftCollectionSymbol(item, isValidItemIdChar).value.value)
         == GetNftGlobalAllowanceSymbol(item)
  {
    var words := Split(item, NftSymbolSeparator);
    var collection := words[0] + [NftSymbolSeparator, '0'];
    SplitPair(words[0], "0", NftSymbolSeparator);
    assert collection == words[0] + [NftSymbolSeparator] + "0";
  }
}
