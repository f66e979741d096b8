/**
 Text primitives shared by the codecs: joining and splitting at a separator,
 stripping a prefix, and decimal printing and reading.
 */
module Text {
  import opened Wrappers

  // ---------- concatenation ----------

  lemma Cancel(p: string, x: string, y: string)
    requires p + x == p + y
    ensures x == y
  {
    assert x == (p + x)[|p|..] && y == (p + y)[|p|..];
  }

  lemma Regroup(a: string, b: string, c: string, d: string)
    ensures a + (b + (c + d)) == a + b + c + d
  {
  }

  lemma LongerPrefix(a: string, ra: string, b: string, rb: string)
    requires a + ra == b + rb && |a| < |b|
    ensures ra != "" && ra[0] in b
  {
    assert ra[0] == (a + ra)[|a|] == b[|a|];
  }

  // ---------- separators ----------

  function Join(sep: char, parts: seq<string>): string
    requires parts != []
  {
    if |parts| == 1 then parts[0] else parts[0] + [sep] + Join(sep, parts[1..])
  }

  function Split(sep: char, s: string): (parts: seq<string>)
    ensures parts != []
  {
    if s == "" then [""]
    else
      var rest := Split(sep, s[1..]);
      if s[0] == sep then [""] + rest else [[s[0]] + rest[0]] + rest[1..]
  }

  lemma {:induction false} SplitThenJoin(sep: char, s: string)
    ensures Join(sep, Split(sep, s)) == s
    ensures forall part | part in Split(sep, s) :: sep !in part
  {
    if s != "" {
      SplitThenJoin(sep, s[1..]);
      var rest := Split(sep, s[1..]);
      var parts := Split(sep, s);
      assert s == [s[0]] + s[1..];
      if s[0] == sep {
        assert parts[1..] == rest;
      } else {
        assert parts[1..] == rest[1..];
        forall part | part in parts ensures sep !in part {
          assert part == parts[0] || part in rest[1..];
          assert rest[0] in rest;
        }
      }
    }
  }

  lemma {:induction false} JoinThenSplit(sep: char, parts: seq<string>)
    requires parts != []
    requires forall part | part in parts :: sep !in part
    ensures Split(sep, Join(sep, parts)) == parts
    decreases |parts|, |parts[0]|
  {
    var first, text := parts[0], Join(sep, parts);
    assert first in parts;
    if first != "" {
      var shorter := [first[1..]] + parts[1..];
      forall part | part in shorter ensures sep !in part {
        assert part == first[1..] || part in parts;
      }
      assert shorter[1..] == parts[1..];
      assert text[1..] == Join(sep, shorter);
      JoinThenSplit(sep, shorter);
      assert text[0] == first[0] && first[0] in first;
      assert [first[0]] + first[1..] == first;
      assert [first] + parts[1..] == parts;
    } else if |parts| > 1 {
      assert text == [sep] + Join(sep, parts[1..]);
      assert text[1..] == Join(sep, parts[1..]);
      JoinThenSplit(sep, parts[1..]);
      assert [""] + parts[1..] == parts;
    }
  }

  /** What follows `prefix` in `s`, if `s` starts with it. */
  function Strip(s: string, prefix: string): (rest: Option<string>)
    ensures forall r :: rest == Some(r) <==> s == prefix + r
  {
    if prefix <= s then
      assert s == prefix + s[|prefix|..];
      Some(s[|prefix|..])
    else None
  }

  /** Splits at the first occurrence of `c`. */
  function SplitOnce(c: char, s: string): (r: Option<(string, string)>)
    ensures r.None? <==> c !in s
    ensures r.Some? ==> s == r.value.0 + [c] + r.value.1 && c !in r.value.0
  {
    if s == "" then None
    else if s[0] == c then Some(("", s[1..]))
    else
      match SplitOnce(c, s[1..])
      case None => None
      case Some((a, b)) => assert s == [s[0]] + s[1..]; Some(([s[0]] + a, b))
  }

  lemma FirstOccurrenceUnique(c: char, a: string, b: string, x: string, y: string)
    requires c !in a && c !in x && a + ([c] + b) == x + ([c] + y)
    ensures a == x && b == y
  {
    var s := a + ([c] + b);
    if |a| < |x| {
      LongerPrefix(a, [c] + b, x, [c] + y);
    } else if |x| < |a| {
      LongerPrefix(x, [c] + y, a, [c] + b);
    }
    assert s[..|a|] == a && s[..|a|] == x;
    Cancel(a, [c] + b, [c] + y);
    Cancel([c], b, y);
  }

  /** The split is the only one whose first part is free of `c`. */
  lemma SplitOnceUnique(c: char, a: string, b: string)
    requires c !in a
    ensures SplitOnce(c, a + [c] + b) == Some((a, b))
  {
    hide SplitOnce;
    var s := a + [c] + b;
    assert s[|a|] == c;
    var (x, y) := SplitOnce(c, s).value;
    assert a + ([c] + b) == s == x + ([c] + y);
    FirstOccurrenceUnique(c, a, b, x, y);
  }

  // ---------- decimals ----------

  predicate IsDigit(c: char) { '0' <= c <= '9' }

  function DigitChar(d: nat): (c: char)
    requires d < 10
    ensures IsDigit(c) && c as int == '0' as int + d
  {
    '0' + d as char
  }

  function DigitValue(c: char): (d: nat)
    requires IsDigit(c)
    ensures d < 10 && d == c as int - '0' as int
  {
    c as int - '0' as int
  }

  function PrintNat(n: nat): (s: string)
    ensures s != "" && forall c | c in s :: IsDigit(c)
  {
    if n < 10 then [DigitChar(n)] else PrintNat(n / 10) + [DigitChar(n % 10)]
  }

  function DigitsValue(s: string): nat
    requires forall c | c in s :: IsDigit(c)
  {
    if s == "" then 0 else
      var last := |s| - 1;
      assert s[last] in s && forall c | c in s[..last] :: c in s;
      10 * DigitsValue(s[..last]) + DigitValue(s[last])
  }

  /** Reads canonical decimals only: no sign, no leading zero. */
  function ReadNat(s: string): Option<nat> {
    if s != "" && (forall c | c in s :: IsDigit(c)) && (s[0] == '0' ==> |s| == 1)
    then Some(DigitsValue(s))
    else None
  }

  lemma {:induction false} PrintThenReadNat(n: nat)
    ensures ReadNat(PrintNat(n)) == Some(n)
    ensures n > 0 ==> PrintNat(n)[0] != '0'
  {
    if n < 10 {
      assert PrintNat(n)[..0] == "";
      assert DigitsValue(PrintNat(n)) == 10 * DigitsValue("") + n;
    } else {
      PrintThenReadNat(n / 10);
      var s := PrintNat(n);
      assert s[..|s| - 1] == PrintNat(n / 10);
    }
  }

  lemma PrintNatSnoc(front: nat, d: nat)
    requires front > 0 && d < 10
    ensures PrintNat(10 * front + d) == PrintNat(front) + [DigitChar(d)]
  {
    assert (10 * front + d) / 10 == front && (10 * front + d) % 10 == d;
  }

  lemma {:induction false} ReadThenPrintNat(s: string)
    requires ReadNat(s).Some?
    ensures PrintNat(ReadNat(s).value) == s
    ensures s[0] != '0' ==> ReadNat(s).value > 0
  {
    var last := |s| - 1;
    var front := s[..last];
    assert s == front + [s[last]] && s[last] in s;
    var d := DigitValue(s[last]);
    assert DigitChar(d) == s[last];
    if last == 0 {
      assert DigitsValue(s) == 10 * DigitsValue("") + d;
    } else {
      assert forall c | c in front :: c in s;
      assert front[0] == s[0];
      ReadThenPrintNat(front);
      PrintNatSnoc(DigitsValue(front), d);
    }
  }

  function PrintInt(i: int): (s: string)
    ensures s != "" && forall c | c in s :: IsDigit(c) || c == '-'
  {
    if i < 0 then "-" + PrintNat(-i) else PrintNat(i)
  }

  function ReadInt(s: string): Option<int> {
    if "-" <= s then
      match ReadNat(s[1..])
      case Some(n) => if n > 0 then Some(-(n as int)) else None
      case None => None
    else
      match ReadNat(s)
      case Some(n) => Some(n)
      case None => None
  }

  lemma PrintThenReadInt(i: int)
    ensures ReadInt(PrintInt(i)) == Some(i)
  {
    if i < 0 {
      PrintThenReadNat(-i);
      assert PrintInt(i)[1..] == PrintNat(-i);
    } else {
      PrintThenReadNat(i);
      assert PrintNat(i)[0] in PrintNat(i);
    }
  }

  lemma ReadThenPrintInt(s: string)
    requires ReadInt(s).Some?
    ensures PrintInt(ReadInt(s).value) == s
  {
    if "-" <= s {
      ReadThenPrintNat(s[1..]);
      assert s == "-" + s[1..];
    } else {
      ReadThenPrintNat(s);
    }
  }
}
