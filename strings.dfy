/** Character counting, splitting and joining of strings, as the .NET string
    operations the contracts use (`Count`, `Split(char)`, string interpolation). */
module Strings {

  /** Number of occurrences of `c` in `s` (LINQ `Count(x => x == c)`). */
  function CountChar(s: string, c: char): nat {
    if s == [] then 0 else (if s[0] == c then 1 else 0) + CountChar(s[1..], c)
  }

  lemma {:induction false} CountPositiveWhenPresent(s: string, c: char)
    ensures c in s <==> CountChar(s, c) > 0
  {
    if s != [] {
      CountPositiveWhenPresent(s[1..], c);
      assert c in s <==> s[0] == c || c in s[1..];
    }
  }

  lemma {:induction false} CountAppend(a: string, b: string, d: char)
    ensures CountChar(a + b, d) == CountChar(a, d) + CountChar(b, d)
  {
    if a != [] {
      assert (a + b)[1..] == a[1..] + b;
      CountAppend(a[1..], b, d);
    } else {
      assert a + b == b;
    }
  }

  /** Position of the first `c` in `s`. */
  function IndexOf(s: string, c: char): (k: nat)
    requires c in s
    ensures k < |s| && s[k] == c && c !in s[..k]
  {
    if s[0] == c then 0
    else
      var k := 1 + IndexOf(s[1..], c);
      assert s[..k] == [s[0]] + s[1..][..k - 1];
      k
  }

  /** The first occurrence is the only position of `c` with no `c` before it. */
  lemma {:induction false} FirstIndexUnique(s: string, c: char, k: nat)
    requires k < |s| && s[k] == c && c !in s[..k]
    ensures IndexOf(s, c) == k
    decreases k
  {
    if k > 0 {
      assert s[..k][0] == s[0];
      assert s[1..][..k - 1] == s[..k][1..];
      FirstIndexUnique(s[1..], c, k - 1);
    }
  }

  /** `s.Split(sep)`: the pieces between the separators, empty ones included. */
  function Split(s: string, sep: char): (words: seq<string>)
    ensures |words| >= 1
    ensures forall i | 0 <= i < |words| :: sep !in words[i]
    decreases |s|
  {
    if sep !in s then [s]
    else
      var k := IndexOf(s, sep);
      [s[..k]] + Split(s[k + 1..], sep)
  }

  /** The pieces put back together with `sep` between them. */
  function Join(words: seq<string>, sep: char): string
    decreases |words|
  {
    if words == [] then []
    else if |words| == 1 then words[0]
    else words[0] + [sep] + Join(words[1..], sep)
  }

  /** A string splits into one more piece than it has separators. */
  lemma {:induction false} SplitLength(s: string, sep: char)
    ensures |Split(s, sep)| == CountChar(s, sep) + 1
    decreases |s|
  {
    CountPositiveWhenPresent(s, sep);
    if sep in s {
      var k := IndexOf(s, sep);
      assert s == s[..k] + ([sep] + s[k + 1..]);
      CountAppend(s[..k], [sep] + s[k + 1..], sep);
      CountAppend([sep], s[k + 1..], sep);
      CountPositiveWhenPresent(s[..k], sep);
      SplitLength(s[k + 1..], sep);
    }
  }

  /** Joining the pieces gives back the string that was split. */
  lemma {:induction false} JoinSplit(s: string, sep: char)
    ensures Join(Split(s, sep), sep) == s
    decreases |s|
  {
    if sep in s {
      var k := IndexOf(s, sep);
      var rest := Split(s[k + 1..], sep);
      JoinSplit(s[k + 1..], sep);
      assert Split(s, sep) == [s[..k]] + rest;
      assert (Split(s, sep))[1..] == rest;
      assert s == s[..k] + [sep] + s[k + 1..];
    }
  }

  /** Splitting a join of separator-free pieces gives back the pieces. */
  lemma {:induction false} SplitJoin(words: seq<string>, sep: char)
    requires |words| >= 1
    requires forall i | 0 <= i < |words| :: sep !in words[i]
    ensures Split(Join(words, sep), sep) == words
    decreases |words|
  {
    if |words| > 1 {
      var rest := Join(words[1..], sep);
      var s := words[0] + [sep] + rest;
      var k := |words[0]|;
      assert Join(words, sep) == s;
      assert s[k] == sep && s[..k] == words[0];
      FirstIndexUnique(s, sep, k);
      assert s[k + 1..] == rest;
      assert Split(s, sep) == [words[0]] + Split(rest, sep);
      SplitJoin(words[1..], sep);
      assert words == [words[0]] + words[1..];
    }
  }

  /** The two-piece case, used for `"<collection>-<item>"` symbols. */
  lemma SplitPair(a: string, b: string, sep: char)
    requires sep !in a && sep !in b
    ensures Split(a + [sep] + b, sep) == [a, b]
  {
    SplitJoin([a, b], sep);
    assert [a, b][1..] == [b];
  }

  /** The decimal text of a number, as string interpolation writes a `long`. */
  function DecimalText(x: int): string {
    if x < 0 then "-" + NaturalText(-x) else NaturalText(x)
  }

  function NaturalText(n: nat): string
    decreases n
  {
    var digit := ['0', '1', '2', '3', '4', '5', '6', '7', '8', '9'][n % 10];
    if n < 10 then [digit] else NaturalText(n / 10) + [digit]
  }
}
