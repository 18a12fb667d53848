/** Conversion of a decimal string into an `Int256Value`
    (src/AElf.Types/Types/Int256Value.cs). The value keeps the digits as text;
    the conversion only vets the minus sign and drops digit-group underscores. */
module Int256 {
  import opened Wrappers
  import opened Strings

  datatype Int256Value = Int256Value(value: string)

  const InvalidBigIntegerString: string := "Invalid big integer string."

  /** The per-character guard exactly as written. Because it joins the two
      range tests with `||`, every character satisfies it (CharGuardHoldsForAll). */
  predicate CharGuard(c: char) {
    '0' <= c || c <= '9' || c == '_' || c == '-'
  }

  /** `s.Replace(c.ToString(), string.Empty)`. */
  function RemoveAll(s: string, c: char): string {
    if s == [] then [] else (if s[0] == c then [] else [s[0]]) + RemoveAll(s[1..], c)
  }

  /** The `implicit operator Int256Value(string)`: `Err` is the `ArgumentException`. */
  function FromString(str: string): (r: Result<Int256Value, string>)
    ensures r.Err? <==> '-' in str && (str[0] != '-' || CountChar(str, '-') != 1)
    ensures r.Err? ==> r.error == InvalidBigIntegerString
    ensures r.Ok? ==> r.value.value == RemoveAll(str, '_')
  {
    CharGuardHoldsForAll(str);
    if forall i | 0 <= i < |str| :: CharGuard(str[i]) then
      if '-' in str then
        CountPositiveWhenPresent(str, '-');
        if str[0] != '-' || CountChar(str, '-') > 1 then Err(InvalidBigIntegerString)
        else Ok(Int256Value(RemoveAll(str, '_')))
      else Ok(Int256Value(RemoveAll(str, '_')))
    else Err(InvalidBigIntegerString)
  }

  /** The guard of line 10 accepts every string, so the final throw is dead code. */
  lemma CharGuardHoldsForAll(str: string)
    ensures forall i | 0 <= i < |str| :: CharGuard(str[i])
  {
  }

  /** A string without a minus sign is always accepted. */
  lemma NoMinusNeverThrows(str: string)
    requires '-' !in str
    ensures FromString(str).Ok?
  {
  }

  /** Exactly one leading minus sign is accepted; anything else with a minus is rejected. */
  lemma MinusRule(str: string)
    requires '-' in str
    ensures FromString(str).Ok? <==> str[0] == '-' && '-' !in str[1..]
  {
    assert str == [str[0]] + str[1..];
    CountPositiveWhenPresent(str[1..], '-');
  }

  /** Removal of `c` distributes over concatenation, so the characters that
      remain keep their relative order. */
  lemma {:induction false} RemoveAllAppend(a: string, b: string, c: char)
    ensures RemoveAll(a + b, c) == RemoveAll(a, c) + RemoveAll(b, c)
  {
    if a != [] {
      assert (a + b)[1..] == a[1..] + b;
      RemoveAllAppend(a[1..], b, c);
    } else {
      assert a + b == b;
    }
  }

  lemma {:induction false} RemoveAllRemoves(s: string, c: char)
    ensures c !in RemoveAll(s, c)
    ensures |RemoveAll(s, c)| == |s| - CountChar(s, c)
  {
    if s != [] {
      RemoveAllRemoves(s[1..], c);
    }
  }

  /** Every other character survives the removal with its multiplicity. */
  lemma {:induction false} RemoveAllKeepsOthers(s: string, c: char, d: char)
    requires d != c
    ensures CountChar(RemoveAll(s, c), d) == CountChar(s, d)
  {
    if s != [] {
      RemoveAllKeepsOthers(s[1..], c, d);
      var head := if s[0] == c then [] else [s[0]];
      assert RemoveAll(s, c) == head + RemoveAll(s[1..], c);
      CountAppend(head, RemoveAll(s[1..], c), d);
    }
  }

  lemma {:induction false} RemoveAllIdle(s: string, c: char)
    requires c !in s
    ensures RemoveAll(s, c) == s
  {
    if s != [] {
      RemoveAllIdle(s[1..], c);
    }
  }

  /** A converted value holds no underscore and converts to itself again. */
  lemma ConversionIsIdempotent(str: string)
    requires FromString(str).Ok?
    ensures '_' !in FromString(str).value.value
    ensures FromString(FromString(str).value.value) == FromString(str)
  {
    var v := RemoveAll(str, '_');
    RemoveAllRemoves(str, '_');
    RemoveAllIdle(v, '_');
    RemoveAllKeepsOthers(str, '_', '-');
    CountPositiveWhenPresent(str, '-');
    CountPositiveWhenPresent(v, '-');
    if '-' in str {
      assert str == [str[0]] + str[1..];
      RemoveAllAppend([str[0]], str[1..], '_');
      assert v[0] == '-';
    }
  }

  // ---------------------------------------------------------------- the character guard

  /** As written, the guard lets letters through: "1a2" converts without complaint. */
  lemma AsWrittenGuardAcceptsLetters()
    ensures FromString("1a2") == Ok(Int256Value("1a2"))
  {
    assert '_' !in "1a2";
    RemoveAllIdle("1a2", '_');
  }

  /** The evidently intended guard: a decimal digit, an underscore or a minus sign. */
  predicate IntendedCharGuard(c: char) {
    ('0' <= c && c <= '9') || c == '_' || c == '-'
  }

  /** The conversion with the intended guard: the minus rule and the underscore
      removal are unchanged. */
  function IntendedFromString(str: string): (r: Result<Int256Value, string>)
    ensures r.Err? ==> r.error == InvalidBigIntegerString
    ensures r.Ok? <==> (forall i | 0 <= i < |str| :: IntendedCharGuard(str[i])) && FromString(str).Ok?
    ensures r.Ok? ==> r == FromString(str)
    ensures r.Ok? ==> forall i | 0 <= i < |r.value.value| :: ('0' <= r.value.value[i] <= '9') || r.value.value[i] == '-'
  {
    if forall i | 0 <= i < |str| :: IntendedCharGuard(str[i]) then
      match FromString(str)
      case Err(e) => Err(e)
      case Ok(v) =>
        RemoveAllKeepsGuard(str);
        Ok(v)
    else Err(InvalidBigIntegerString)
  }

  /** Removing the underscores from a string of digits, underscores and minus
      signs leaves only digits and minus signs. */
  lemma {:induction false} RemoveAllKeepsGuard(s: string)
    requires forall i | 0 <= i < |s| :: IntendedCharGuard(s[i])
    ensures forall i | 0 <= i < |RemoveAll(s, '_')| :: ('0' <= RemoveAll(s, '_')[i] <= '9') || RemoveAll(s, '_')[i] == '-'
  {
    if s != [] {
      assert forall i | 0 <= i < |s[1..]| :: s[1..][i] == s[i + 1];
      RemoveAllKeepsGuard(s[1..]);
    }
  }

  /** The intended conversion rejects the string the written one accepts. */
  lemma IntendedGuardRejectsLetters()
    ensures IntendedFromString("1a2") == Err(InvalidBigIntegerString)
  {
    assert !IntendedCharGuard("1a2"[1]);
  }
}
