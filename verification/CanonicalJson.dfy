/**
 Canonical JSON: sorted object keys, no whitespace. Objects are maps and numbers
 are the tokens the serializer prints for them, so two values are equal exactly
 when they are the same JSON value as the log sees it.
 */
module CanonicalJson {
  import opened Text
  import Hex
  import JsonReader

  predicate IsNumberChar(c: char) {
    '0' <= c <= '9' || c == '-' || c == '+' || c == '.' || c == 'e' || c == 'E'
  }

  type NumberToken = t: string | JsonReader.IsNumber(t) witness "0"

  lemma TokenChars(t: NumberToken)
    ensures t != "" && (t[0] == '-' || '0' <= t[0] <= '9')
    ensures forall c | c in t :: IsNumberChar(c)
  {
    forall k | 0 <= k < |t| ensures IsNumberChar(t[k]) {
    }
  }

  datatype Json =
    | Null
    | Bool(b: bool)
    | Number(token: NumberToken)
    | Str(text: string)
    | Array(items: seq<Json>)
    | Object(members: map<string, Json>)

  // ---------- string literals (section 7 of RFC 8259) ----------

  function EscapeChar(c: char): (s: string)
    ensures s != "" && s[0] != '"'
  {
    match c
    case '"' => "\\\""
    case '\\' => "\\\\"
    case '\U{08}' => "\\b"
    case '\U{0C}' => "\\f"
    case '\n' => "\\n"
    case '\r' => "\\r"
    case '\t' => "\\t"
    case _ =>
      if c < ' ' then "\\u00" + [Hex.CharOf(c as int / 16), Hex.CharOf(c as int % 16)] else [c]
  }

  function Escape(s: string): string {
    if s == "" then "" else EscapeChar(s[0]) + Escape(s[1..])
  }

  function JsonString(s: string): (r: string)
    ensures r != "" && r[0] == '"'
  {
    "\"" + Escape(s) + "\""
  }

  // ---------- key order: Rust `String` order, by Unicode scalar value ----------

  predicate Below(a: string, b: string) {
    b != "" && (a == "" || a[0] < b[0] || (a[0] == b[0] && Below(a[1..], b[1..])))
  }

  lemma {:induction false} BelowTotal(a: string, b: string)
    ensures Below(a, b) || a == b || Below(b, a)
  {
    if a != "" && b != "" && a[0] == b[0] {
      BelowTotal(a[1..], b[1..]);
      assert a == [a[0]] + a[1..] && b == [b[0]] + b[1..];
    }
  }

  lemma {:induction false} BelowAsymmetric(a: string, b: string)
    requires Below(a, b)
    ensures !Below(b, a) && a != b
  {
    if a != "" && a[0] == b[0] {
      BelowAsymmetric(a[1..], b[1..]);
    }
  }

  lemma {:induction false} BelowTransitive(a: string, b: string, c: string)
    requires Below(a, b) && Below(b, c)
    ensures Below(a, c)
  {
    if a != "" && a[0] == b[0] == c[0] {
      BelowTransitive(a[1..], b[1..], c[1..]);
    }
  }

  predicate IsLeast(k: string, keys: set<string>) {
    k in keys && forall j | j in keys && j != k :: Below(k, j)
  }

  lemma LeastExists(keys: set<string>)
    requires keys != {}
    ensures exists k :: IsLeast(k, keys)
    decreases |keys|
  {
    var x :| x in keys;
    var rest := keys - {x};
    if rest == {} {
      assert keys == {x};
      assert IsLeast(x, keys);
    } else {
      LeastExists(rest);
      var k :| IsLeast(k, rest);
      BelowTotal(x, k);
      if Below(x, k) {
        forall j | j in keys && j != x ensures Below(x, j) {
          if j != k { BelowTransitive(x, k, j); }
        }
        assert IsLeast(x, keys);
      } else {
        assert IsLeast(k, keys);
      }
    }
  }

  function Least(keys: set<string>): (k: string)
    requires keys != {}
    ensures IsLeast(k, keys)
  {
    LeastExists(keys);
    assert forall j, k | IsLeast(j, keys) && IsLeast(k, keys) :: j == k by {
      forall j, k | IsLeast(j, keys) && IsLeast(k, keys) ensures j == k {
        if j != k { BelowAsymmetric(j, k); }
      }
    }
    var k :| k in keys && IsLeast(k, keys);
    k
  }

  ghost predicate IsSorted(ks: seq<string>) {
    forall i, j | 0 <= i < j < |ks| :: Below(ks[i], ks[j])
  }

  function SortedKeys(keys: set<string>): (ks: seq<string>)
    ensures IsSorted(ks)
    ensures forall k :: k in ks <==> k in keys
    decreases |keys|
  {
    if keys == {} then [] else
      var k := Least(keys);
      var rest := SortedKeys(keys - {k});
      assert forall i | 0 <= i < |rest| :: rest[i] in rest;
      [k] + rest
  }

  /** Sorting has one result: any strictly ascending list of exactly these keys is it. */
  lemma {:induction false} SortedKeysUnique(keys: set<string>, ks: seq<string>)
    requires IsSorted(ks) && forall k :: k in ks <==> k in keys
    ensures ks == SortedKeys(keys)
    decreases |ks|
  {
    assert ks != [] ==> ks[0] in ks;
    if keys != {} {
      var least := Least(keys);
      assert least in ks;
      if ks[0] != least {
        var i :| 0 <= i < |ks| && ks[i] == least;
        BelowAsymmetric(ks[0], least);
      }
      forall k ensures k in ks[1..] <==> k in keys - {least} {
        if k in ks && k != least { assert k in ks[1..]; }
        if least in ks[1..] {
          var i :| 1 <= i < |ks| && ks[i] == least;
          BelowAsymmetric(ks[0], ks[i]);
        }
      }
      SortedKeysUnique(keys - {least}, ks[1..]);
      assert ks == [ks[0]] + ks[1..];
    }
  }

  // ---------- the canonical form ----------

  function Canonical(v: Json): string {
    match v
    case Null => "null"
    case Bool(b) => if b then "true" else "false"
    case Number(t) => t
    case Str(s) => JsonString(s)
    case Array(_) => "[" + Items(v, 0) + "]"
    case Object(_) => "{" + Members(v, 0) + "}"
  }

  function Comma(i: nat): string { if i > 0 then "," else "" }

  /** The elements from index `i` on, with a comma before all but the first. */
  function Items(v: Json, i: nat): string
    requires v.Array? && i <= |v.items|
    decreases v, |v.items| - i
  {
    if i == |v.items| then "" else Comma(i) + Canonical(v.items[i]) + Items(v, i + 1)
  }

  function Keys(v: Json): (ks: seq<string>)
    requires v.Object?
    ensures IsSorted(ks) && forall k :: k in ks <==> k in v.members
  {
    SortedKeys(v.members.Keys)
  }

  function Members(v: Json, i: nat): string
    requires v.Object? && i <= |Keys(v)|
    decreases v, |Keys(v)| - i
  {
    if i == |Keys(v)| then "" else
      var k := Keys(v)[i];
      Comma(i) + JsonString(k) + ":" + Canonical(v.members[k]) + Members(v, i + 1)
  }

  // ---------- string literals are self-delimiting ----------

  lemma EscapeCharUnambiguous(c: char, d: char, x: string, y: string)
    requires EscapeChar(c) + x == EscapeChar(d) + y
    ensures c == d && x == y
  {
    var s, t := EscapeChar(c) + x, EscapeChar(d) + y;
    assert s[0] == EscapeChar(c)[0] && t[0] == EscapeChar(d)[0];
    if |EscapeChar(c)| > 1 {
      assert s[1] == EscapeChar(c)[1];
    }
    if |EscapeChar(d)| > 1 {
      assert t[1] == EscapeChar(d)[1];
    }
    if |EscapeChar(c)| == 6 && |EscapeChar(d)| == 6 {
      assert s[4] == EscapeChar(c)[4] && s[5] == EscapeChar(c)[5];
      assert t[4] == EscapeChar(d)[4] && t[5] == EscapeChar(d)[5];
    }
    assert c == d;
    assert x == s[|EscapeChar(c)|..] && y == t[|EscapeChar(c)|..];
  }

  lemma {:induction false} EscapeUnambiguous(a: string, b: string, ra: string, rb: string)
    requires Escape(a) + "\"" + ra == Escape(b) + "\"" + rb
    ensures a == b && ra == rb
  {
    var s, t := Escape(a) + "\"" + ra, Escape(b) + "\"" + rb;
    hide EscapeChar;
    assert s[0] == (if a == "" then '"' else EscapeChar(a[0])[0]);
    assert t[0] == (if b == "" then '"' else EscapeChar(b[0])[0]);
    if a == "" {
      assert s[1..] == ra && t[1..] == rb;
    } else {
      var x, y := Escape(a[1..]) + "\"" + ra, Escape(b[1..]) + "\"" + rb;
      assert s == EscapeChar(a[0]) + x && t == EscapeChar(b[0]) + y;
      EscapeCharUnambiguous(a[0], b[0], x, y);
      EscapeUnambiguous(a[1..], b[1..], ra, rb);
      assert a == [a[0]] + a[1..] && b == [b[0]] + b[1..];
    }
  }

  lemma JsonStringUnambiguous(a: string, b: string, ra: string, rb: string)
    requires JsonString(a) + ra == JsonString(b) + rb
    ensures a == b && ra == rb
  {
    var s, t := JsonString(a) + ra, JsonString(b) + rb;
    assert s[1..] == Escape(a) + "\"" + ra && t[1..] == Escape(b) + "\"" + rb;
    EscapeUnambiguous(a, b, ra, rb);
  }

  // ---------- canonical values are unambiguous before a closing character ----------

  /** A rest that can follow a value: nothing, or `,` `]` `}`. */
  predicate Closing(r: string) {
    r == "" || r[0] == ',' || r[0] == ']' || r[0] == '}'
  }

  lemma TokenUnambiguous(a: string, b: string, ra: string, rb: string)
    requires forall c | c in a :: IsNumberChar(c)
    requires forall c | c in b :: IsNumberChar(c)
    requires Closing(ra) && Closing(rb) && a + ra == b + rb
    ensures a == b && ra == rb
  {
    var s := a + ra;
    if |a| < |b| {
      LongerPrefix(a, ra, b, rb);
    } else if |b| < |a| {
      LongerPrefix(b, rb, a, ra);
    }
    assert a == s[..|a|] && b == s[..|b|] && ra == s[|a|..] && rb == s[|b|..];
  }

  lemma FirstChar(v: Json)
    ensures Canonical(v) != ""
    ensures var c := Canonical(v)[0];
            && (v.Null? <==> c == 'n')
            && (v == Bool(true) <==> c == 't')
            && (v == Bool(false) <==> c == 'f')
            && (v.Number? <==> c == '-' || '0' <= c <= '9')
            && (v.Str? <==> c == '"')
            && (v.Array? <==> c == '[')
            && (v.Object? <==> c == '{')
  {
    if v.Number? { TokenChars(v.token); }
    hide JsonReader.IsNumber;
  }

  // The text from element or member `i` on, up to and including a rest `r`.

  ghost function ItemsThen(v: Json, i: nat, r: string): string
    requires v.Array? && i <= |v.items|
  {
    Items(v, i) + "]" + r
  }

  ghost function MembersThen(v: Json, i: nat, r: string): string
    requires v.Object? && i <= |Keys(v)|
  {
    Members(v, i) + "}" + r
  }

  lemma ItemsStep(v: Json, i: nat, r: string)
    requires v.Array? && i < |v.items|
    ensures ItemsThen(v, i, r) == Comma(i) + (Canonical(v.items[i]) + ItemsThen(v, i + 1, r))
  {
  }

  lemma MembersStep(v: Json, i: nat, r: string)
    requires v.Object? && i < |Keys(v)|
    ensures var k := Keys(v)[i];
            MembersThen(v, i, r) == Comma(i) + (JsonString(k) + (":" + (Canonical(v.members[k]) + MembersThen(v, i + 1, r))))
  {
    hide JsonString;
    hide Canonical;
  }

  lemma MembersEnd(v: Json, r: string)
    requires v.Object?
    ensures MembersThen(v, |Keys(v)|, r) == "}" + r
  {
  }

  /** The remaining text starts with the closing bracket exactly at the end. */
  lemma ItemsHead(v: Json, i: nat, r: string)
    requires v.Array? && i <= |v.items|
    ensures ItemsThen(v, i, r)[0] == ']' <==> i == |v.items|
    ensures 0 < i ==> Closing(ItemsThen(v, i, r))
  {
    if i < |v.items| {
      FirstChar(v.items[i]);
      assert Items(v, i)[0] == (if i > 0 then ',' else Canonical(v.items[i])[0]);
    }
  }

  lemma MembersHead(v: Json, i: nat, r: string)
    requires v.Object? && i <= |Keys(v)|
    ensures MembersThen(v, i, r)[0] == '}' <==> i == |Keys(v)|
    ensures 0 < i ==> Closing(MembersThen(v, i, r))
  {
    if i < |Keys(v)| {
      assert Members(v, i)[0] == (if i > 0 then ',' else '"');
    }
  }

  /** Equal outputs before closing rests come from equal values and equal rests. */
  lemma {:induction false} Unambiguous(a: Json, b: Json, ra: string, rb: string)
    requires Closing(ra) && Closing(rb)
    requires Canonical(a) + ra == Canonical(b) + rb
    ensures a == b && ra == rb
    decreases a
  {
    FirstChar(a);
    FirstChar(b);
    assert (Canonical(a) + ra)[0] == Canonical(a)[0] && (Canonical(b) + rb)[0] == Canonical(b)[0];
    match a {
      case Null => Cancel("null", ra, rb);
      case Bool(_) => Cancel(Canonical(a), ra, rb);
      case Number(x) =>
        TokenChars(x);
        TokenChars(b.token);
        TokenUnambiguous(x, b.token, ra, rb);
      case Str(x) => JsonStringUnambiguous(x, b.text, ra, rb);
      case Array(_) =>
        ArrayText(a, ra);
        ArrayText(b, rb);
        Cancel("[", ItemsThen(a, 0, ra), ItemsThen(b, 0, rb));
        ItemsUnambiguous(a, b, 0, ra, rb);
      case Object(_) =>
        ObjectText(a, ra);
        ObjectText(b, rb);
        Cancel("{", MembersThen(a, 0, ra), MembersThen(b, 0, rb));
        MembersUnambiguous(a, b, 0, ra, rb);
        assert a.members == b.members;
    }
  }

  lemma ArrayText(v: Json, r: string)
    requires v.Array?
    ensures Canonical(v) + r == "[" + ItemsThen(v, 0, r)
  {
  }

  lemma ObjectText(v: Json, r: string)
    requires v.Object?
    ensures Canonical(v) + r == "{" + MembersThen(v, 0, r)
  {
  }

  lemma {:induction false} ItemsUnambiguous(a: Json, b: Json, i: nat, ra: string, rb: string)
    requires a.Array? && b.Array? && i <= |a.items| && i <= |b.items|
    requires a.items[..i] == b.items[..i]
    requires ItemsThen(a, i, ra) == ItemsThen(b, i, rb)
    ensures a.items == b.items && ra == rb
    decreases a, |a.items| - i
  {
    ItemsHead(a, i, ra);
    ItemsHead(b, i, rb);
    if i == |a.items| {
      assert Items(a, i) == "" && Items(b, i) == "";
      assert ItemsThen(a, i, ra) == "]" + ra && ItemsThen(b, i, rb) == "]" + rb;
      Cancel("]", ra, rb);
      assert a.items == a.items[..i] && b.items == b.items[..i];
    } else {
      var x, y := ItemsThen(a, i + 1, ra), ItemsThen(b, i + 1, rb);
      ItemsStep(a, i, ra);
      ItemsStep(b, i, rb);
      Cancel(Comma(i), Canonical(a.items[i]) + x, Canonical(b.items[i]) + y);
      ItemsHead(a, i + 1, ra);
      ItemsHead(b, i + 1, rb);
      Unambiguous(a.items[i], b.items[i], x, y);
      assert a.items[..i + 1] == a.items[..i] + [a.items[i]];
      assert b.items[..i + 1] == b.items[..i] + [b.items[i]];
      ItemsUnambiguous(a, b, i + 1, ra, rb);
    }
  }

  lemma {:induction false} MembersUnambiguous(a: Json, b: Json, i: nat, ra: string, rb: string)
    requires a.Object? && b.Object? && i <= |Keys(a)| && i <= |Keys(b)|
    requires Keys(a)[..i] == Keys(b)[..i]
    requires forall k | k in Keys(a)[..i] :: a.members[k] == b.members[k]
    requires MembersThen(a, i, ra) == MembersThen(b, i, rb)
    ensures Keys(a) == Keys(b) && ra == rb
    ensures forall k | k in Keys(a) :: a.members[k] == b.members[k]
    decreases a, |Keys(a)| - i
  {
    hide Keys;
    hide IsSorted;
    hide MembersThen;
    var ks, ls := Keys(a), Keys(b);
    MembersHead(a, i, ra);
    MembersHead(b, i, rb);
    if i == |ks| {
      MembersEnd(a, ra);
      MembersEnd(b, rb);
      Cancel("}", ra, rb);
      assert ks == ks[..i] && ls == ls[..i];
    } else {
      MembersHead(a, i + 1, ra);
      MembersHead(b, i + 1, rb);
      MemberUnambiguous(a, b, i, ra, rb);
      assert ks[..i + 1] == ks[..i] + [ks[i]] && ls[..i + 1] == ls[..i] + [ls[i]];
      MembersUnambiguous(a, b, i + 1, ra, rb);
    }
  }

  lemma {:induction false} MemberUnambiguous(a: Json, b: Json, i: nat, ra: string, rb: string)
    requires a.Object? && b.Object? && i < |Keys(a)| && i < |Keys(b)|
    requires MembersThen(a, i, ra) == MembersThen(b, i, rb)
    requires Closing(MembersThen(a, i + 1, ra)) && Closing(MembersThen(b, i + 1, rb))
    ensures Keys(a)[i] == Keys(b)[i] && a.members[Keys(a)[i]] == b.members[Keys(b)[i]]
    ensures MembersThen(a, i + 1, ra) == MembersThen(b, i + 1, rb)
    decreases a, 0
  {
    var j, k, x, y := Keys(a)[i], Keys(b)[i], MembersThen(a, i + 1, ra), MembersThen(b, i + 1, rb);
    var p, q := Canonical(a.members[j]) + x, Canonical(b.members[k]) + y;
    MembersStep(a, i, ra);
    MembersStep(b, i, rb);
    Cancel(Comma(i), JsonString(j) + (":" + p), JsonString(k) + (":" + q));
    JsonStringUnambiguous(j, k, ":" + p, ":" + q);
    Cancel(":", p, q);
    Unambiguous(a.members[j], b.members[k], x, y);
  }

  // ---------- the writer ----------

  class Buffer {
    var text: string

    constructor ()
      ensures text == ""
    {
      text := "";
    }

    method Push(s: string)
      modifies this
      ensures text == old(text) + s
    {
      text := text + s;
    }
  }

  /** Appends the canonical form of `v` to the buffer. */
  method WriteCanonical(v: Json, out: Buffer)
    modifies out
    ensures out.text == old(out.text) + Canonical(v)
    decreases v
  {
    match v {
      case Null => out.Push("null");
      case Bool(b) => out.Push(if b then "true" else "false");
      case Number(t) => out.Push(t);
      case Str(s) => out.Push(JsonString(s));
      case Array(_) => WriteArray(v, out);
      case Object(_) => WriteObject(v, out);
    }
  }

  method WriteArray(v: Json, out: Buffer)
    requires v.Array?
    modifies out
    ensures out.text == old(out.text) + Canonical(v)
    decreases v, 0
  {
    ghost var all := ItemsThen(v, 0, "");
    ghost var start := old(out.text) + "[";
    out.Push("[");
    for i := 0 to |v.items|
      invariant out.text + ItemsThen(v, i, "") == start + all
    {
      ItemsStep(v, i, "");
      Regroup(out.text, Comma(i), Canonical(v.items[i]), ItemsThen(v, i + 1, ""));
      out.Push(Comma(i));
      WriteCanonical(v.items[i], out);
    }
    out.Push("]");
    assert out.text == start + all;
    ArrayText(v, "");
    assert start + all == old(out.text) + ("[" + all);
    assert Canonical(v) + "" == Canonical(v);
  }

  method WriteObject(v: Json, out: Buffer)
    requires v.Object?
    modifies out
    ensures out.text == old(out.text) + Canonical(v)
    decreases v, 0
  {
    hide SortedKeys;
    hide JsonString;
    var keys := Keys(v);
    ghost var all := MembersThen(v, 0, "");
    ghost var start := old(out.text) + "{";
    out.Push("{");
    for i := 0 to |keys|
      invariant out.text + MembersThen(v, i, "") == start + all
    {
      var k := keys[i];
      MembersStep(v, i, "");
      ghost var rest := Canonical(v.members[k]) + MembersThen(v, i + 1, "");
      Regroup(out.text, Comma(i), JsonString(k), ":" + rest);
      Regroup(out.text + Comma(i) + JsonString(k), ":", Canonical(v.members[k]), MembersThen(v, i + 1, ""));
      out.Push(Comma(i));
      out.Push(JsonString(k));
      out.Push(":");
      WriteCanonical(v.members[k], out);
    }
    out.Push("}");
    assert out.text == start + all;
    ObjectText(v, "");
    assert start + all == old(out.text) + ("{" + all);
    assert Canonical(v) + "" == Canonical(v);
  }
}
