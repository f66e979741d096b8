/**
 A JSON reader after the grammar of RFC 8259. It keeps the members of an object in
 the order they stand in the text, and knows nothing of how texts are written.
 */
module JsonReader {
  import opened Wrappers

  datatype Tree =
    | TNull
    | TBool(b: bool)
    | TNumber(token: string)
    | TString(text: string)
    | TArray(items: seq<Tree>)
    | TObject(members: seq<Member>)

  datatype Member = Member(name: string, value: Tree)

  // ---------- whitespace (section 2) ----------

  predicate IsSpace(c: char) { c == ' ' || c == '\t' || c == '\n' || c == '\r' }

  function Skip(s: string): (r: string)
    ensures |r| <= |s|
  {
    if s != "" && IsSpace(s[0]) then Skip(s[1..]) else s
  }

  predicate StartsWith(s: string, c: char) { s != "" && s[0] == c }

  // ---------- numbers (section 6) ----------

  predicate IsDigit(c: char) { '0' <= c <= '9' }

  function DigitsEnd(s: string, i: nat): (j: nat)
    requires i <= |s|
    ensures i <= j <= |s| && (forall k | i <= k < j :: IsDigit(s[k])) && (j < |s| ==> !IsDigit(s[j]))
    decreases |s| - i
  {
    if i < |s| && IsDigit(s[i]) then DigitsEnd(s, i + 1) else i
  }

  predicate CharAt(s: string, i: nat, cs: string) { i < |s| && s[i] in cs }

  /** Optional minus, integer part without leading zeros, optional fraction, optional exponent. */
  predicate IsNumber(t: string) {
    var a := if CharAt(t, 0, "-") then 1 else 0;
    var b := DigitsEnd(t, a);
    var c := if CharAt(t, b, ".") then DigitsEnd(t, b + 1) else b;
    var e := if CharAt(t, c, "eE") then if CharAt(t, c + 1, "+-") then c + 2 else c + 1 else c;
    && a < b && (t[a] == '0' ==> b == a + 1)
    && (CharAt(t, b, ".") ==> b + 1 < c)
    && DigitsEnd(t, e) == |t|
    && (CharAt(t, c, "eE") ==> e < |t|)
    && (!CharAt(t, c, "eE") ==> c == |t|)
  }

  predicate MayStandInNumber(c: char) { IsDigit(c) || c in "-+.eE" }

  function NumberEnd(s: string): (n: nat)
    ensures n <= |s| && (forall k | 0 <= k < n :: MayStandInNumber(s[k])) && (n < |s| ==> !MayStandInNumber(s[n]))
  {
    if s != "" && MayStandInNumber(s[0]) then 1 + NumberEnd(s[1..]) else 0
  }

  // ---------- strings (section 7) ----------

  function HexValue(c: char): Option<nat> {
    if '0' <= c <= '9' then Some(c as int - 48)
    else if 'a' <= c <= 'f' then Some(c as int - 87)
    else if 'A' <= c <= 'F' then Some(c as int - 55)
    else None
  }

  /** The code unit of four hexadecimal digits. */
  function CodeUnit(s: string): (u: Option<nat>)
    ensures u.Some? ==> |s| >= 4
  {
    if |s| < 4 then None
    else
      match (HexValue(s[0]), HexValue(s[1]), HexValue(s[2]), HexValue(s[3]))
      case (Some(a), Some(b), Some(c), Some(d)) => Some(4096 * a + 256 * b + 16 * c + d)
      case _ => None
  }

  /** What follows `\u`: one code unit, or a surrogate pair. */
  function ReadUnicode(s: string): (r: Option<(char, string)>)
    ensures r.Some? ==> |r.value.1| < |s|
  {
    match CodeUnit(s)
    case None => None
    case Some(u) =>
      if u < 0xD800 || 0xE000 <= u < 0x1_0000 then Some((u as char, s[4..]))
      else if u < 0xDC00 && |s| >= 6 && s[4] == '\\' && s[5] == 'u' then
        match CodeUnit(s[6..])
        case Some(v) =>
          if 0xDC00 <= v < 0xE000 then Some(((0x1_0000 + 1024 * (u - 0xD800) + (v - 0xDC00)) as char, s[10..])) else None
        case None => None
      else None
  }

  /** What follows a backslash. */
  function ReadEscape(s: string): (r: Option<(char, string)>)
    ensures r.Some? ==> |r.value.1| < |s|
  {
    if s == "" then None
    else if s[0] == '"' then Some(('"', s[1..]))
    else if s[0] == '\\' then Some(('\\', s[1..]))
    else if s[0] == '/' then Some(('/', s[1..]))
    else if s[0] == 'b' then Some((8 as char, s[1..]))
    else if s[0] == 'f' then Some((12 as char, s[1..]))
    else if s[0] == 'n' then Some((10 as char, s[1..]))
    else if s[0] == 'r' then Some((13 as char, s[1..]))
    else if s[0] == 't' then Some((9 as char, s[1..]))
    else if s[0] == 'u' then ReadUnicode(s[1..])
    else None
  }

  /** The characters of a string up to its closing quotation mark, and what follows that. */
  function ReadChars(s: string): (r: Option<(string, string)>)
    ensures r.Some? ==> |r.value.1| < |s|
  {
    if s == "" then None
    else if s[0] == '"' then Some(("", s[1..]))
    else if s[0] == '\\' then
      match ReadEscape(s[1..])
      case None => None
      case Some((c, after)) =>
        match ReadChars(after)
        case None => None
        case Some((text, rest)) => Some(([c] + text, rest))
    else if s[0] < ' ' then None
    else
      match ReadChars(s[1..])
      case None => None
      case Some((text, rest)) => Some(([s[0]] + text, rest))
  }

  // ---------- values (sections 3 to 5) ----------

  function ReadWord(s: string, word: string, value: Tree): (r: Option<(Tree, string)>)
    requires word != ""
    ensures r.Some? ==> |r.value.1| < |s|
  {
    if word <= s then Some((value, s[|word|..])) else None
  }

  /** Reads the value at the front of `s`, and gives what follows it. */
  function ReadValue(s: string): (r: Option<(Tree, string)>)
    ensures r.Some? ==> |r.value.1| < |s|
    decreases |s|, 0
  {
    if s == "" then None
    else if s[0] == 'n' then ReadWord(s, "null", TNull)
    else if s[0] == 't' then ReadWord(s, "true", TBool(true))
    else if s[0] == 'f' then ReadWord(s, "false", TBool(false))
    else if s[0] == '"' then
      match ReadChars(s[1..])
      case None => None
      case Some((text, rest)) => Some((TString(text), rest))
    else if s[0] == '[' then
      if StartsWith(Skip(s[1..]), ']') then Some((TArray([]), Skip(s[1..])[1..]))
      else
        match ReadItems(s[1..])
        case None => None
        case Some((items, rest)) => Some((TArray(items), rest))
    else if s[0] == '{' then
      if StartsWith(Skip(s[1..]), '}') then Some((TObject([]), Skip(s[1..])[1..]))
      else
        match ReadMembers(s[1..])
        case None => None
        case Some((members, rest)) => Some((TObject(members), rest))
    else
      var n := NumberEnd(s);
      if n > 0 && IsNumber(s[..n]) then Some((TNumber(s[..n]), s[n..])) else None
  }

  /** One or more values separated by commas, up to and including the closing bracket. */
  function ReadItems(s: string): (r: Option<(seq<Tree>, string)>)
    ensures r.Some? ==> |r.value.1| < |s|
    decreases |s|, 1
  {
    match ReadValue(Skip(s))
    case None => None
    case Some((value, after)) =>
      var next := Skip(after);
      if StartsWith(next, ']') then Some(([value], next[1..]))
      else if StartsWith(next, ',') then
        match ReadItems(next[1..])
        case None => None
        case Some((values, rest)) => Some(([value] + values, rest))
      else None
  }

  function ReadMember(s: string): (r: Option<(Member, string)>)
    ensures r.Some? ==> |r.value.1| < |s|
    decreases |s|, 1
  {
    var start := Skip(s);
    if !StartsWith(start, '"') then None
    else
      match ReadChars(start[1..])
      case None => None
      case Some((name, afterName)) =>
        var colon := Skip(afterName);
        if !StartsWith(colon, ':') then None
        else
          match ReadValue(Skip(colon[1..]))
          case None => None
          case Some((value, rest)) => Some((Member(name, value), rest))
  }

  function ReadMembers(s: string): (r: Option<(seq<Member>, string)>)
    ensures r.Some? ==> |r.value.1| < |s|
    decreases |s|, 2
  {
    match ReadMember(s)
    case None => None
    case Some((member, after)) =>
      var next := Skip(after);
      if StartsWith(next, '}') then Some(([member], next[1..]))
      else if StartsWith(next, ',') then
        match ReadMembers(next[1..])
        case None => None
        case Some((members, rest)) => Some(([member] + members, rest))
      else None
  }

  /** A whole text is one value, with whitespace around it. */
  function Read(s: string): Option<Tree> {
    match ReadValue(Skip(s))
    case None => None
    case Some((tree, rest)) => if Skip(rest) == "" then Some(tree) else None
  }
}
