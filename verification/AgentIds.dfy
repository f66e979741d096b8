/** Agent identifiers: validation, scheme dispatch and the W3C DID URI parser. */
module AgentIds {
  import opened Wrappers
  import opened Text

  const MAX_AGENT_ID_LEN := 256

  datatype IdScheme = SpizeNative | DidSpize | DidEthr | DidWeb | DidKey | Unknown

  /** Printable ASCII without spaces, at most 256 characters, with a scheme separator. */
  predicate ValidAgentId(s: string) {
    0 < |s| <= MAX_AGENT_ID_LEN && (forall c | c in s :: '!' <= c <= '~') && ':' in s
  }

  function DidPrefix(m: string): string { "did:" + (m + ":") }

  function Scheme(s: string): IdScheme {
    if "spize:" <= s then SpizeNative
    else if DidPrefix("spize") <= s then DidSpize
    else if DidPrefix("ethr") <= s then DidEthr
    else if DidPrefix("web") <= s then DidWeb
    else if DidPrefix("key") <= s then DidKey
    else Unknown
  }

  datatype DidUri = DidUri(method_: string, id: string, fragment: Option<string>)

  predicate IsMethodName(s: string) {
    s != "" && forall c | c in s :: 'a' <= c <= 'z' || '0' <= c <= '9'
  }

  function Parse(s: string): Option<DidUri> {
    match Strip(s, "did:")
    case None => None
    case Some(rest) =>
      match SplitOnce(':', rest)
      case None => None
      case Some((m, after)) =>
        if !IsMethodName(m) then None else
          var (id, fragment) := match SplitOnce('#', after)
                                case Some((id, f)) => (id, Some(f))
                                case None => (after, None);
          if id == "" || fragment == Some("") then None else Some(DidUri(m, id, fragment))
  }

  predicate WellFormed(u: DidUri) {
    && u.method_ != "" && (forall c | c in u.method_ :: 97 <= c as int <= 122 || 48 <= c as int <= 57)
    && u.id != "" && '#' !in u.id && u.fragment != Some("")
  }

  function Tail(u: DidUri): string {
    u.id + (match u.fragment case Some(f) => "#" + f case None => "")
  }

  function Print(u: DidUri): string { "did:" + (u.method_ + ":" + Tail(u)) }

  /** Parsing a printed, well-formed URI returns its components. */
  lemma PrintThenParse(u: DidUri)
    requires WellFormed(u)
    ensures Parse(Print(u)) == Some(u)
  {
    assert Strip(Print(u), "did:") == Some(u.method_ + ":" + Tail(u));
    SplitOnceUnique(':', u.method_, Tail(u));
    if u.fragment.Some? {
      assert Tail(u) == u.id + "#" + u.fragment.value;
      SplitOnceUnique('#', u.id, u.fragment.value);
    } else {
      assert Tail(u) == u.id;
    }
  }

  /** Parsing succeeds on nothing else: what it returns is well formed and prints back. */
  lemma ParseThenPrint(s: string)
    requires Parse(s).Some?
    ensures WellFormed(Parse(s).value) && Print(Parse(s).value) == s
  {
    var rest := Strip(s, "did:").value;
    var (m, after) := SplitOnce(':', rest).value;
    assert s == "did:" + rest && rest == m + ":" + after;
    var u := Parse(s).value;
    assert Tail(u) == after;
  }

  /** Dispatch by prefix, on every text; no two of the prefixes can hold. */
  lemma SchemeExactly(s: string)
    ensures Scheme(s) == SpizeNative <==> "spize:" <= s
    ensures Scheme(s) == DidSpize <==> "did:spize:" <= s
    ensures Scheme(s) == DidEthr <==> "did:ethr:" <= s
    ensures Scheme(s) == DidWeb <==> "did:web:" <= s
    ensures Scheme(s) == DidKey <==> "did:key:" <= s
  {
    assert DidPrefix("spize") == "did:spize:" && DidPrefix("ethr") == "did:ethr:";
    assert DidPrefix("web") == "did:web:" && DidPrefix("key") == "did:key:";
    hide DidPrefix;
    assert "spize:" <= s ==> s[0] == 's';
    assert "did:spize:" <= s ==> s[0] == 'd' && s[4] == 's';
    assert "did:ethr:" <= s ==> s[0] == 'd' && s[4] == 'e';
    assert "did:web:" <= s ==> s[0] == 'd' && s[4] == 'w';
    assert "did:key:" <= s ==> s[0] == 'd' && s[4] == 'k';
  }

  function MethodScheme(m: string): IdScheme {
    if m == "spize" then DidSpize
    else if m == "ethr" then DidEthr
    else if m == "web" then DidWeb
    else if m == "key" then DidKey
    else Unknown
  }

  /** Prefix dispatch agrees with the parsed method on every parsable id. */
  lemma SchemeMatchesMethod(s: string)
    requires Parse(s).Some?
    ensures Scheme(s) == MethodScheme(Parse(s).value.method_)
  {
    ParseThenPrint(s);
    hide Parse;
    hide DidPrefix;
    var u := Parse(s).value;
    assert s[0] == 'd';
    MethodPrefix(u, "spize");
    MethodPrefix(u, "ethr");
    MethodPrefix(u, "web");
    MethodPrefix(u, "key");
    hide Print;
  }

  lemma MethodPrefix(u: DidUri, m: string)
    requires IsMethodName(u.method_) && IsMethodName(m)
    ensures DidPrefix(m) <= Print(u) <==> u.method_ == m
  {
    var p, s := DidPrefix(m), Print(u);
    if u.method_ == m {
      assert s == p + Tail(u);
    }
    if p <= s {
      var t := s[|p|..];
      assert s == "did:" + (m + ":" + t);
      Cancel("did:", m + ":" + t, u.method_ + ":" + Tail(u));
      SplitOnceUnique(':', m, t);
      SplitOnceUnique(':', u.method_, Tail(u));
    }
  }
}
