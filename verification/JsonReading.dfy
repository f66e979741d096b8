/** Canonical text read by the grammar: what is written is what a JSON reader gets. */
module JsonReading {
  import opened Wrappers
  import opened Text
  import opened CanonicalJson
  import opened JsonReader
  import Hex

  // ---------- what a reading stands for ----------

  /** `a` is a proper prefix of `b`, or has the smaller character where they first differ. */
  predicate Earlier(a: string, b: string) {
    exists n | 0 <= n < |b| && n <= |a| :: a[..n] == b[..n] && (n == |a| || a[n] < b[n])
  }

  /** The reading holds exactly the value, with the members of every object in order and named once. */
  ghost predicate Represents(t: Tree, v: Json)
    decreases v
  {
    match v
    case Null => t == TNull
    case Bool(b) => t == TBool(b)
    case Number(token) => t == TNumber(token)
    case Str(text) => t == TString(text)
    case Array(items) =>
      && t.TArray? && |t.items| == |items|
      && forall i | 0 <= i < |items| :: Represents(t.items[i], items[i])
    case Object(members) =>
      && t.TObject?
      && (forall i, j | 0 <= i < j < |t.members| :: Earlier(t.members[i].name, t.members[j].name))
      && (forall name | name in members :: exists i | 0 <= i < |t.members| :: t.members[i].name == name)
      && forall i | 0 <= i < |t.members| ::
           t.members[i].name in members && Represents(t.members[i].value, members[t.members[i].name])
  }

  lemma {:induction false} BelowIsEarlier(a: string, b: string)
    requires Below(a, b)
    ensures Earlier(a, b)
  {
    if a == "" || a[0] < b[0] {
      assert a[..0] == b[..0];
    } else {
      BelowIsEarlier(a[1..], b[1..]);
      var x, y := a[1..], b[1..];
      var n :| 0 <= n < |y| && n <= |x| && x[..n] == y[..n] && (n == |x| || x[n] < y[n]);
      assert a == [a[0]] + x && b == [b[0]] + y;
      assert a[..n + 1] == [a[0]] + x[..n] && b[..n + 1] == [b[0]] + y[..n];
    }
  }

  // ---------- strings ----------

  lemma SkipNothing(s: string)
    requires s == "" || !IsSpace(s[0])
    ensures Skip(s) == s
  {
  }

  /** An escaped character reads back. */
  lemma ReadsEscapedChar(c: char, rest: string)
    requires ReadChars(rest).Some?
    ensures var (text, after) := ReadChars(rest).value;
            ReadChars(EscapeChar(c) + rest) == Some(([c] + text, after))
  {
    var s := EscapeChar(c) + rest;
    if |EscapeChar(c)| == 1 {
      assert s[0] == c && s[1..] == rest;
    } else {
      assert s[0] == '\\' && s[1] == EscapeChar(c)[1];
      if |EscapeChar(c)| == 2 {
        assert s[1..][1..] == rest;
      } else {
        ReadsControlChar(c, rest);
      }
    }
  }

  lemma ReadsControlChar(c: char, rest: string)
    requires |EscapeChar(c)| == 6
    ensures ReadEscape((EscapeChar(c) + rest)[1..]) == Some((c, rest))
  {
    var s := (EscapeChar(c) + rest)[1..];
    var high, low := c as int / 16, c as int % 16;
    assert s == "u00" + [Hex.CharOf(high), Hex.CharOf(low)] + rest;
    var digits := s[1..];
    assert digits[0] == '0' && digits[1] == '0' && digits[2] == Hex.CharOf(high) && digits[3] == Hex.CharOf(low);
    assert HexValue(Hex.CharOf(high)) == Some(high) && HexValue(Hex.CharOf(low)) == Some(low);
    assert CodeUnit(digits) == Some(16 * high + low);
    assert digits[4..] == rest;
  }

  lemma {:induction false} ReadsString(t: string, rest: string)
    ensures ReadChars(Escape(t) + ("\"" + rest)) == Some((t, rest))
  {
    hide EscapeChar;
    if t == "" {
      assert Escape(t) + ("\"" + rest) == "\"" + rest;
      assert ("\"" + rest)[1..] == rest;
    } else {
      ReadsString(t[1..], rest);
      hide ReadChars;
      ReadsEscapedChar(t[0], Escape(t[1..]) + ("\"" + rest));
      assert Escape(t) + ("\"" + rest) == EscapeChar(t[0]) + (Escape(t[1..]) + ("\"" + rest));
      assert t == [t[0]] + t[1..];
    }
  }

  lemma ReadsLiteral(t: string, rest: string)
    ensures JsonString(t) + rest != "" && (JsonString(t) + rest)[0] == '"'
    ensures ReadChars((JsonString(t) + rest)[1..]) == Some((t, rest))
  {
    ReadsString(t, rest);
    assert (JsonString(t) + rest)[1..] == Escape(t) + ("\"" + rest);
  }

  // ---------- numbers ----------

  lemma {:induction false} NumberEndsAt(t: string, rest: string)
    requires forall c | c in t :: MayStandInNumber(c)
    requires rest != "" ==> !MayStandInNumber(rest[0])
    ensures NumberEnd(t + rest) == |t|
  {
    if t != "" {
      assert (t + rest)[1..] == t[1..] + rest && t[0] in t;
      forall c | c in t[1..] ensures MayStandInNumber(c) { assert c in t; }
      NumberEndsAt(t[1..], rest);
    } else {
      assert t + rest == rest;
    }
  }

  lemma ReadsNumber(t: NumberToken, rest: string)
    requires Closing(rest)
    ensures ReadValue(t + rest) == Some((TNumber(t), rest))
  {
    TokenChars(t);
    NumberEndsAt(t, rest);
    hide IsNumber;
    var s := t + rest;
    assert s[0] == t[0] && s[..|t|] == t && s[|t|..] == rest;
  }

  // ---------- values ----------

  /** Reading canonical text before a closing rest gives the value and that rest. */
  lemma {:induction false} ReadsCanonical(v: Json, rest: string) returns (t: Tree)
    requires Closing(rest)
    ensures ReadValue(Canonical(v) + rest) == Some((t, rest)) && Represents(t, v)
    decreases v, 1
  {
    var s := Canonical(v) + rest;
    match v
    case Null =>
      t := TNull;
      assert s[..4] == "null" && s[4..] == rest && s[0] == 'n';
    case Bool(b) =>
      t := TBool(b);
      assert s[..|Canonical(v)|] == Canonical(v) && s[|Canonical(v)|..] == rest && s[0] == Canonical(v)[0];
    case Number(token) =>
      t := TNumber(token);
      ReadsNumber(token, rest);
    case Str(text) =>
      t := TString(text);
      ReadsLiteral(text, rest);
    case Array(_) => t := ReadsArray(v, rest);
    case Object(_) => t := ReadsObject(v, rest);
  }

  // One step of the reader each, on text without whitespace.

  lemma ReadsBracket(inner: string, items: seq<Tree>, rest: string)
    requires inner != "" && !IsSpace(inner[0]) && inner[0] != ']' && ReadItems(inner) == Some((items, rest))
    ensures ReadValue("[" + inner) == Some((TArray(items), rest))
  {
    var s := "[" + inner;
    assert s[0] == '[' && s[1..] == inner;
    SkipNothing(inner);
    hide Skip;
    hide ReadItems;
  }

  lemma ReadsBrace(inner: string, members: seq<Member>, rest: string)
    requires inner != "" && !IsSpace(inner[0]) && inner[0] != '}' && ReadMembers(inner) == Some((members, rest))
    ensures ReadValue("{" + inner) == Some((TObject(members), rest))
  {
    var s := "{" + inner;
    assert s[0] == '{' && s[1..] == inner;
    SkipNothing(inner);
    hide Skip;
    hide ReadMembers;
  }

  lemma ReadsEmpty(rest: string)
    ensures ReadValue("[" + ("]" + rest)) == Some((TArray([]), rest))
    ensures ReadValue("{" + ("}" + rest)) == Some((TObject([]), rest))
  {
    var a, o := "]" + rest, "}" + rest;
    assert ("[" + a)[1..] == a && ("{" + o)[1..] == o && a[1..] == rest && o[1..] == rest;
    SkipNothing(a);
    SkipNothing(o);
    hide Skip;
  }

  lemma ReadsLastItem(s: string, value: Tree, rest: string)
    requires s != "" && !IsSpace(s[0]) && ReadValue(s) == Some((value, "]" + rest))
    ensures ReadItems(s) == Some(([value], rest))
  {
    SkipNothing(s);
    SkipNothing("]" + rest);
    assert ("]" + rest)[1..] == rest;
    hide Skip;
    hide ReadValue;
  }

  lemma ReadsItemComma(s: string, value: Tree, next: string, others: seq<Tree>, rest: string)
    requires s != "" && !IsSpace(s[0]) && ReadValue(s) == Some((value, "," + next))
    requires ReadItems(next) == Some((others, rest))
    ensures ReadItems(s) == Some(([value] + others, rest))
  {
    SkipNothing(s);
    SkipNothing("," + next);
    assert ("," + next)[1..] == next;
    hide Skip;
    hide ReadValue;
  }

  lemma ReadsLastMember(s: string, member: Member, rest: string)
    requires ReadMember(s) == Some((member, "}" + rest))
    ensures ReadMembers(s) == Some(([member], rest))
  {
    SkipNothing("}" + rest);
    assert ("}" + rest)[1..] == rest;
    hide Skip;
    hide ReadMember;
  }

  lemma ReadsMemberComma(s: string, member: Member, next: string, others: seq<Member>, rest: string)
    requires ReadMember(s) == Some((member, "," + next))
    requires ReadMembers(next) == Some((others, rest))
    ensures ReadMembers(s) == Some(([member] + others, rest))
  {
    SkipNothing("," + next);
    assert ("," + next)[1..] == next;
    hide Skip;
    hide ReadMember;
  }

  lemma {:induction false} ReadsArray(v: Json, rest: string) returns (t: Tree)
    requires v.Array?
    ensures ReadValue(Canonical(v) + rest) == Some((t, rest)) && Represents(t, v)
    decreases v, 0, |v.items| + 1
  {
    ArrayText(v, rest);
    hide ReadValue;
    hide ReadItems;
    if v.items == [] {
      assert ItemsThen(v, 0, rest) == "]" + rest;
      hide Canonical;
      hide Represents;
      ReadsEmpty(rest);
      assert ItemsFrom(v, 0, []);
      ItemsRepresent(v, []);
      t := TArray([]);
    } else {
      var inner := Canonical(v.items[0]) + ItemsThen(v, 1, rest);
      FirstItem(v, rest);
      hide Canonical;
      hide ItemsThen;
      hide Represents;
      var items := ReadsItems(v, 0, rest);
      ReadsBracket(inner, items, rest);
      ItemsRepresent(v, items);
      t := TArray(items);
    }
  }

  lemma FirstItem(v: Json, rest: string)
    requires v.Array? && v.items != []
    ensures var inner := Canonical(v.items[0]) + ItemsThen(v, 1, rest);
            ItemsThen(v, 0, rest) == inner && inner != "" && !IsSpace(inner[0]) && inner[0] != ']'
  {
    ItemsStep(v, 0, rest);
    FirstChar(v.items[0]);
    hide Canonical;
    hide ItemsThen;
  }

  lemma ItemsRepresent(v: Json, items: seq<Tree>)
    requires v.Array? && ItemsFrom(v, 0, items)
    ensures Represents(TArray(items), v)
  {
  }

  /** The trees represent the elements from index `i` on. */
  ghost predicate ItemsFrom(v: Json, i: nat, items: seq<Tree>)
    requires v.Array? && i <= |v.items|
  {
    |items| == |v.items| - i && forall k | 0 <= k < |items| :: Represents(items[k], v.items[i + k])
  }

  lemma ItemsFromCons(v: Json, i: nat, first: Tree, others: seq<Tree>)
    requires v.Array? && i < |v.items| && Represents(first, v.items[i]) && ItemsFrom(v, i + 1, others)
    ensures ItemsFrom(v, i, [first] + others)
  {
    var items := [first] + others;
    forall k | 0 <= k < |items| ensures Represents(items[k], v.items[i + k]) {
      if k > 0 { assert items[k] == others[k - 1]; }
    }
    hide Represents;
  }

  lemma {:induction false} ReadsItems(v: Json, i: nat, rest: string) returns (items: seq<Tree>)
    requires v.Array? && i < |v.items|
    ensures ReadItems(Canonical(v.items[i]) + ItemsThen(v, i + 1, rest)) == Some((items, rest))
    ensures ItemsFrom(v, i, items)
    decreases v, 0, |v.items| - i
  {
    var after := ItemsThen(v, i + 1, rest);
    var s := Canonical(v.items[i]) + after;
    ItemsHead(v, i + 1, rest);
    FirstChar(v.items[i]);
    assert i + 1 == |v.items| ==> after == "]" + rest;
    hide Canonical;
    hide ReadValue;
    hide ReadItems;
    hide Represents;
    hide ItemsThen;
    assert ItemsFrom(v, |v.items|, []);
    hide ItemsFrom;
    var first := ReadsCanonical(v.items[i], after);
    if i + 1 == |v.items| {
      ReadsLastItem(s, first, rest);
      ItemsFromCons(v, i, first, []);
      items := [first];
      assert [first] + [] == items;
    } else {
      ItemsStep(v, i + 1, rest);
      var others := ReadsItems(v, i + 1, rest);
      ReadsItemComma(s, first, Canonical(v.items[i + 1]) + ItemsThen(v, i + 2, rest), others, rest);
      ItemsFromCons(v, i, first, others);
      items := [first] + others;
    }
  }

  lemma {:induction false} ReadsObject(v: Json, rest: string) returns (t: Tree)
    requires v.Object?
    ensures ReadValue(Canonical(v) + rest) == Some((t, rest)) && Represents(t, v)
    decreases v, 0, |Keys(v)| + 1
  {
    ObjectText(v, rest);
    hide ReadValue;
    hide ReadMembers;
    hide Canonical;
    hide Represents;
    if Keys(v) == [] {
      MembersEnd(v, rest);
      ReadsEmpty(rest);
      assert MembersFrom(v, 0, []);
      MembersRepresent(v, []);
      t := TObject([]);
    } else {
      MembersStep(v, 0, rest);
      var inner := MemberText(v, 0, rest);
      MemberTextStarts(v, rest);
      var members := ReadsMembers(v, 0, rest);
      ReadsBrace(inner, members, rest);
      MembersRepresent(v, members);
      t := TObject(members);
    }
  }

  lemma MemberTextStarts(v: Json, rest: string)
    requires v.Object? && Keys(v) != []
    ensures MemberText(v, 0, rest) != "" && MemberText(v, 0, rest)[0] == '"'
    ensures MembersThen(v, 0, rest) == MemberText(v, 0, rest)
  {
    MembersStep(v, 0, rest);
    hide MembersThen;
    hide Canonical;
    assert "" + MemberText(v, 0, rest) == MemberText(v, 0, rest);
  }

  /** Member `i` and everything after it, without a comma in front. */
  ghost function MemberText(v: Json, i: nat, rest: string): string
    requires v.Object? && i < |Keys(v)|
  {
    var k := Keys(v)[i];
    JsonString(k) + (":" + (Canonical(v.members[k]) + MembersThen(v, i + 1, rest)))
  }

  lemma CommaBefore(v: Json, i: nat, rest: string)
    requires v.Object? && 0 < i < |Keys(v)|
    ensures MembersThen(v, i, rest) == "," + MemberText(v, i, rest)
  {
    MembersStep(v, i, rest);
  }

  /** The members represent those from key number `i` on. */
  ghost predicate MembersFrom(v: Json, i: nat, members: seq<Member>)
    requires v.Object? && i <= |Keys(v)|
  {
    && |members| == |Keys(v)| - i
    && forall k | 0 <= k < |members| ::
         members[k].name == Keys(v)[i + k] && Represents(members[k].value, v.members[Keys(v)[i + k]])
  }

  lemma MembersFromCons(v: Json, i: nat, first: Member, others: seq<Member>)
    requires v.Object? && i < |Keys(v)| && MembersFrom(v, i + 1, others)
    requires first.name == Keys(v)[i] && Represents(first.value, v.members[first.name])
    ensures MembersFrom(v, i, [first] + others)
  {
    var members := [first] + others;
    hide Represents;
    forall k | 0 <= k < |members|
      ensures members[k].name == Keys(v)[i + k] && Represents(members[k].value, v.members[Keys(v)[i + k]])
    {
      if k > 0 { assert members[k] == others[k - 1] && Keys(v)[i + 1 + (k - 1)] == Keys(v)[i + k]; }
    }
  }

  lemma MembersRepresent(v: Json, members: seq<Member>)
    requires v.Object? && MembersFrom(v, 0, members)
    ensures Represents(TObject(members), v)
  {
    var ks := Keys(v);
    forall i, j | 0 <= i < j < |members| ensures Earlier(members[i].name, members[j].name) {
      BelowIsEarlier(ks[i], ks[j]);
    }
    forall name | name in v.members ensures exists i | 0 <= i < |members| :: members[i].name == name {
      var i :| 0 <= i < |ks| && ks[i] == name;
      assert members[i].name == name;
    }
  }

  lemma {:induction false} ReadsMembers(v: Json, i: nat, rest: string) returns (members: seq<Member>)
    requires v.Object? && i < |Keys(v)|
    ensures ReadMembers(MemberText(v, i, rest)) == Some((members, rest))
    ensures MembersFrom(v, i, members)
    decreases v, 0, |Keys(v)| - i
  {
    var ks := Keys(v);
    var k, after := ks[i], MembersThen(v, i + 1, rest);
    MembersHead(v, i + 1, rest);
    hide Canonical;
    hide JsonString;
    hide ReadValue;
    hide ReadMember;
    hide ReadMembers;
    hide Represents;
    hide MembersThen;
    hide IsSorted;
    hide Keys;
    var value := ReadsCanonical(v.members[k], after);
    ReadsMember(k, v.members[k], after, value);
    assert ReadMember(MemberText(v, i, rest)) == Some((Member(k, value), after));
    assert MembersFrom(v, |ks|, []);
    hide MembersFrom;
    hide MemberText;
    hide Closing;
    if i + 1 == |ks| {
      MembersEnd(v, rest);
      ReadsLastMember(MemberText(v, i, rest), Member(k, value), rest);
      MembersFromCons(v, i, Member(k, value), []);
      members := [Member(k, value)];
      assert [Member(k, value)] + [] == members;
    } else {
      CommaBefore(v, i + 1, rest);
      var others := ReadsMembers(v, i + 1, rest);
      ReadsMemberComma(MemberText(v, i, rest), Member(k, value), MemberText(v, i + 1, rest), others, rest);
      MembersFromCons(v, i, Member(k, value), others);
      members := [Member(k, value)] + others;
    }
  }

  lemma ReadsMember(name: string, v: Json, after: string, value: Tree)
    requires ReadValue(Canonical(v) + after) == Some((value, after))
    ensures ReadMember(JsonString(name) + (":" + (Canonical(v) + after))) == Some((Member(name, value), after))
  {
    var tail := Canonical(v) + after;
    var colon := ":" + tail;
    var s := JsonString(name) + colon;
    ReadsLiteral(name, colon);
    SkipNothing(s);
    SkipNothing(colon);
    assert colon[1..] == tail;
    FirstChar(v);
    SkipNothing(tail);
    hide Canonical;
    hide JsonString;
    hide Skip;
    hide ReadChars;
    hide ReadValue;
  }
}
