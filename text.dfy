/**
 * String helpers shared by the loaders: joining, the text a `+= x + sep` loop
 * leaves behind, substring search as std::string::find does it, and decimal
 * rendering and parsing of integers (std::to_string, sprintf("%ld"), std::stoull).
 */
module Text {
  import opened Wrappers

  /** Elements separated by `sep`: Join(["a", "b"], ", ") == "a, b". */
  function Join(xs: seq<string>, sep: string): string
  {
    if |xs| == 0 then ""
    else if |xs| == 1 then xs[0]
    else Join(xs[..|xs| - 1], sep) + sep + xs[|xs| - 1]
  }

  /** Every element followed by `sep`: the buffer after `for x: q += x + sep`. */
  function Terminated(xs: seq<string>, sep: string): string
  {
    if |xs| == 0 then "" else Terminated(xs[..|xs| - 1], sep) + xs[|xs| - 1] + sep
  }

  /** Appending one more element to a separator-terminated buffer yields the join. */
  lemma {:induction false} JoinSnoc(xs: seq<string>, x: string, sep: string)
    ensures Join(xs + [x], sep) == Terminated(xs, sep) + x
  {
    var ys := xs + [x];
    assert ys[..|ys| - 1] == xs;
    if |xs| > 0 {
      var init := xs[..|xs| - 1];
      JoinSnoc(init, xs[|xs| - 1], sep);
      assert init + [xs[|xs| - 1]] == xs;
    }
  }

  /** A non-empty terminated buffer is the join followed by one separator. */
  lemma TerminatedIsJoin(xs: seq<string>, sep: string)
    requires |xs| > 0
    ensures Terminated(xs, sep) == Join(xs, sep) + sep
  {
    var init := xs[..|xs| - 1];
    assert init + [xs[|xs| - 1]] == xs;
    JoinSnoc(init, xs[|xs| - 1], sep);
  }

  lemma TerminatedSnoc(xs: seq<string>, x: string, sep: string)
    ensures Terminated(xs + [x], sep) == Terminated(xs, sep) + x + sep
  {
    assert (xs + [x])[..|xs|] == xs;
  }

  /** Appending element i and `sep` to the buffer of elements m..i gives the buffer of elements m..i + 1. */
  lemma BufferPush(prefix: string, xs: seq<string>, m: nat, i: nat, query: string, sep: string)
    requires m <= i < |xs| && query == prefix + Terminated(xs[m..i], sep)
    ensures query + xs[i] + sep == prefix + Terminated(xs[m..i + 1], sep)
  {
    assert xs[m..i + 1] == xs[m..i] + [xs[i]];
    TerminatedSnoc(xs[m..i], xs[i], sep);
  }

  /** Terminated distributes over concatenation. */
  lemma {:induction false} TerminatedAppend(xs: seq<string>, ys: seq<string>, sep: string)
    ensures Terminated(xs + ys, sep) == Terminated(xs, sep) + Terminated(ys, sep)
    decreases |ys|
  {
    if |ys| == 0 {
      assert xs + ys == xs;
    } else {
      var init := ys[..|ys| - 1];
      assert (xs + ys)[..|xs + ys| - 1] == xs + init;
      TerminatedAppend(xs, init, sep);
    }
  }

  /** Two `pop_back` calls. */
  function Drop2(s: string): (r: string)
    requires |s| >= 2
    ensures r + s[|s| - 2..] == s
  {
    s[..|s| - 2]
  }

  /** Popping two characters off a buffer only touches its last part. */
  lemma DropTail(prefix: string, tail: string)
    requires |tail| >= 2
    ensures Drop2(prefix + tail) == prefix + Drop2(tail)
  {
    assert (prefix + tail)[..|prefix + tail| - 2] == prefix + tail[..|tail| - 2];
  }

  /** Overwriting the trailing separator of a non-empty terminated buffer with `end`. */
  lemma ReplaceLastSeparator(prefix: string, xs: seq<string>, sep: char, end: char)
    requires |xs| > 0
    ensures |prefix + Terminated(xs, [sep])| > 0
    ensures (prefix + Terminated(xs, [sep]))[|prefix + Terminated(xs, [sep])| - 1 := end] == prefix + Join(xs, [sep]) + [end]
  {
    TerminatedIsJoin(xs, [sep]);
    assert prefix + Terminated(xs, [sep]) == (prefix + Join(xs, [sep])) + [sep];
  }

  /** One `pop_back` off a non-empty buffer terminated by ',' leaves prefix + join. */
  lemma DropComma(prefix: string, xs: seq<string>)
    requires |xs| > 0
    ensures |prefix + Terminated(xs, ",")| >= 1
    ensures (prefix + Terminated(xs, ","))[..|prefix + Terminated(xs, ",")| - 1] == prefix + Join(xs, ",")
  {
    TerminatedIsJoin(xs, ",");
    assert prefix + Terminated(xs, ",") == (prefix + Join(xs, ",")) + ",";
  }

  /** Dropping a trailing ", " from a terminated buffer leaves prefix + join. */
  lemma DropSeparator(prefix: string, xs: seq<string>)
    requires |xs| > 0
    ensures |prefix + Terminated(xs, ", ")| >= 2
    ensures Drop2(prefix + Terminated(xs, ", ")) == prefix + Join(xs, ", ")
  {
    TerminatedIsJoin(xs, ", ");
    assert prefix + Terminated(xs, ", ") == (prefix + Join(xs, ", ")) + ", ";
  }

  // ---------------------------------------------------------------------------
  // Substring search

  /** `pat` occurs in `s` starting at index `j`. */
  predicate OccursAt(s: string, pat: string, j: nat)
  {
    j + |pat| <= |s| && s[j..j + |pat|] == pat
  }

  /** std::string::find: the first index where `pat` occurs, or npos (None). */
  function Find(s: string, pat: string): (r: Option<nat>)
    ensures r.Some? ==> OccursAt(s, pat, r.value)
    ensures r.Some? ==> forall j :: 0 <= j < r.value ==> !OccursAt(s, pat, j)
    ensures r.None? ==> forall j :: 0 <= j ==> !OccursAt(s, pat, j)
  {
    FindFrom(s, pat, 0)
  }

  /** The first index from `i` on where `pat` occurs. */
  function FindFrom(s: string, pat: string, i: nat): (r: Option<nat>)
    ensures r.Some? ==> i <= r.value && OccursAt(s, pat, r.value)
    ensures r.Some? ==> forall j :: i <= j < r.value ==> !OccursAt(s, pat, j)
    ensures r.None? ==> forall j :: i <= j ==> !OccursAt(s, pat, j)
    decreases |s| - i
  {
    if i + |pat| > |s| then None
    else if s[i..i + |pat|] == pat then Some(i)
    else FindFrom(s, pat, i + 1)
  }

  /** The empty pattern is found at index 0 of every string. */
  lemma FindEmptyPattern(s: string)
    ensures Find(s, "") == Some(0)
  {
  }

  // ---------------------------------------------------------------------------
  // Decimal numbers

  predicate IsDigit(c: char)
  {
    '0' <= c <= '9'
  }

  function DigitChar(d: nat): (c: char)
    requires d < 10
    ensures IsDigit(c) && DigitValue(c) == d
  {
    ('0' as int + d) as char
  }

  /** std::to_string of a non-negative integer. */
  function NatToDec(n: nat): (r: string)
    ensures |r| > 0
    ensures forall i :: 0 <= i < |r| ==> IsDigit(r[i])
    decreases n
  {
    if n < 10 then [DigitChar(n)] else NatToDec(n / 10) + [DigitChar(n % 10)]
  }

  /** std::to_string / sprintf("%ld") of a signed integer. */
  function IntToDec(i: int): string
  {
    if i < 0 then "-" + NatToDec(-i) else NatToDec(i)
  }

  function DigitValue(c: char): nat
    requires IsDigit(c)
  {
    c as int - '0' as int
  }

  /** The value of a string of decimal digits. */
  function DecValue(s: string): nat
    requires forall i :: 0 <= i < |s| ==> IsDigit(s[i])
  {
    if |s| == 0 then 0 else DecValue(s[..|s| - 1]) * 10 + DigitValue(s[|s| - 1])
  }

  /** The longest prefix of `s` made of decimal digits. */
  function LeadingDigits(s: string): (r: string)
    ensures r <= s
    ensures forall i :: 0 <= i < |r| ==> IsDigit(r[i])
    ensures |r| < |s| ==> !IsDigit(s[|r|])
  {
    if |s| == 0 || !IsDigit(s[0]) then "" else [s[0]] + LeadingDigits(s[1..])
  }

  const U64_LIMIT: nat := 0x1_0000_0000_0000_0000

  /**
   * std::stoull on a token without sign or leading blanks: the value of the
   * leading digits; no digit at all (invalid_argument) or a value of 2^64 or
   * more (out_of_range) is an error.
   */
  function ParseU64(s: string): Option<nat>
  {
    var d := LeadingDigits(s);
    if |d| == 0 || DecValue(d) >= U64_LIMIT then None else Some(DecValue(d))
  }

  lemma {:induction false} DecValueOfNatToDec(n: nat)
    ensures DecValue(NatToDec(n)) == n
    decreases n
  {
    var r := NatToDec(n);
    if n >= 10 {
      DecValueOfNatToDec(n / 10);
      assert r[..|r| - 1] == NatToDec(n / 10);
    } else {
      assert r[..|r| - 1] == [];
    }
  }

  lemma {:induction false} LeadingDigitsOfDigits(s: string)
    requires forall i :: 0 <= i < |s| ==> IsDigit(s[i])
    ensures LeadingDigits(s) == s
  {
    if |s| > 0 {
      LeadingDigitsOfDigits(s[1..]);
    }
  }

  /** Reading back what std::to_string wrote gives the same id. */
  lemma ParseU64OfNatToDec(n: nat)
    requires n < U64_LIMIT
    ensures ParseU64(NatToDec(n)) == Some(n)
  {
    LeadingDigitsOfDigits(NatToDec(n));
    DecValueOfNatToDec(n);
  }
}
