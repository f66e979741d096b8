/** The hashed text of an event, read as JSON. */
module EventReading {
  import opened Wrappers
  import opened CanonicalJson
  import opened JsonReader
  import opened JsonReading
  import opened AuditEvent

  predicate Plain(s: string) { forall c | c in s :: c >= ' ' && c != '"' && c != '\\' }

  lemma {:induction false} PlainIsUnescaped(s: string)
    requires Plain(s)
    ensures JsonString(s) == "\"" + s + "\""
  {
    PlainEscape(s);
    hide Escape;
  }

  lemma {:induction false} PlainEscape(s: string)
    requires Plain(s)
    ensures Escape(s) == s
  {
    hide EscapeChar;
    if s != "" {
      assert s[0] in s && forall c | c in s[1..] :: c in s;
      PlainEscape(s[1..]);
      PlainChar(s[0]);
      assert s == [s[0]] + s[1..];
    }
  }

  lemma PlainChar(c: char)
    requires c >= ' ' && c != '"' && c != '\\'
    ensures EscapeChar(c) == [c]
  {
  }

  /** A member with a plain name: the text of name, colon and value, and what comes after. */
  ghost function Field(name: string, v: Json, after: string): string {
    "\"" + name + "\":" + (Canonical(v) + after)
  }

  lemma ReadsField(name: string, v: Json, after: string) returns (value: Tree)
    requires Plain(name) && Closing(after)
    ensures ReadMember(Field(name, v, after)) == Some((Member(name, value), after)) && Represents(value, v)
  {
    hide Canonical;
    hide ReadMember;
    hide Represents;
    hide JsonString;
    hide ReadValue;
    hide Plain;
    hide Closing;
    value := ReadsCanonical(v, after);
    ReadsMember(name, v, after, value);
    PlainIsUnescaped(name);
    Colon(name, Canonical(v) + after);
  }

  lemma Colon(name: string, tail: string)
    ensures "\"" + name + "\"" + (":" + tail) == "\"" + name + "\":" + tail
  {
  }

  /** The last member of an object, or one with others after it. */
  lemma ReadsLast(name: string, v: Json) returns (members: seq<Member>)
    requires Plain(name)
    ensures ReadMembers(Field(name, v, "}")) == Some((members, ""))
    ensures |members| == 1 && members[0].name == name && Represents(members[0].value, v)
  {
    assert "}" + "" == "}";
    var value := ReadsField(name, v, "}");
    hide Field;
    ReadsLastMember(Field(name, v, "}"), Member(name, value), "");
    members := [Member(name, value)];
  }

  lemma ReadsNext(name: string, v: Json, next: string, others: seq<Member>) returns (members: seq<Member>)
    requires Plain(name) && ReadMembers(next) == Some((others, ""))
    ensures ReadMembers(Field(name, v, "," + next)) == Some((members, ""))
    ensures |members| == |others| + 1 && members[0].name == name && Represents(members[0].value, v) && members[1..] == others
  {
    var value := ReadsField(name, v, "," + next);
    hide Field;
    hide ReadMembers;
    ReadsMemberComma(Field(name, v, "," + next), Member(name, value), next, others, "");
    members := [Member(name, value)] + others;
  }

  // The parts of the canonical text, as fields.

  ghost function PrevField(prev: string): string { Field("prev", Str(prev), "}") }

  ghost function TsField(ts: string, prev: string): string { Field("ts", Str(ts), "," + PrevField(prev)) }

  ghost function PayloadField(payload: Json, ts: string, prev: string): string {
    Field("payload", payload, "," + TsField(ts, prev))
  }

  ghost function SubjectField(subject: string, payload: Json, ts: string, prev: string): string {
    Field("subject", Str(subject), "," + PayloadField(payload, ts, prev))
  }

  ghost function ActorField(actor: string, subject: string, payload: Json, ts: string, prev: string): string {
    Field("actor", Str(actor), "," + SubjectField(subject, payload, ts, prev))
  }

  lemma TailIsFields(payload: Json, ts: string, prev: string)
    ensures PrevPart(prev) == "," + PrevField(prev)
    ensures TsPart(ts, prev) == "," + TsField(ts, prev)
    ensures PayloadPart(payload, ts, prev) == "," + PayloadField(payload, ts, prev)
  {
    hide JsonString;
    assert ",\"prev\":" == "," + ("\"" + "prev" + "\":");
    assert ",\"ts\":" == "," + ("\"" + "ts" + "\":");
    assert ",\"payload\":" == "," + ("\"" + "payload" + "\":");
    assert Canonical(Str(prev)) == JsonString(prev) && Canonical(Str(ts)) == JsonString(ts);
    hide Canonical;
  }

  lemma SubjectIsField(e: Event, ts: string, prev: string)
    ensures SubjectPart(e, ts, prev) == "," + SubjectField(e.subject, e.payload, ts, prev)
  {
    TailIsFields(e.payload, ts, prev);
    assert Canonical(Str(e.subject)) == JsonString(e.subject);
    hide JsonString;
    hide Canonical;
    hide PayloadPart;
    hide PayloadField;
    SubjectText(JsonString(e.subject) + PayloadPart(e.payload, ts, prev));
  }

  lemma SubjectText(x: string)
    ensures ",\"subject\":" + x == "," + ("\"" + "subject" + "\":" + x)
  {
    assert ",\"subject\":" == "," + ("\"" + "subject" + "\":");
  }

  lemma ActorIsField(e: Event, ts: string, prev: string)
    ensures ActorPart(e, ts, prev) == "\"" + ("," + ActorField(e.actor, e.subject, e.payload, ts, prev))
  {
    SubjectIsField(e, ts, prev);
    assert Canonical(Str(e.actor)) == JsonString(e.actor);
    hide JsonString;
    hide Canonical;
    hide SubjectPart;
    hide SubjectField;
    assert "\",\"actor\":" == "\"" + ("," + ("\"" + "actor" + "\":"));
  }

  lemma HeadIsFields(e: Event, ts: string, prev: string)
    ensures EventText(e, ts, prev) ==
            "{" + Field("kind", Str(AsStr(e.kind)), "," + ActorField(e.actor, e.subject, e.payload, ts, prev))
  {
    var k, actor := AsStr(e.kind), ActorField(e.actor, e.subject, e.payload, ts, prev);
    ActorIsField(e, ts, prev);
    KindIsPlain(e.kind);
    PlainIsUnescaped(k);
    assert Canonical(Str(k)) == "\"" + k + "\"";
    hide AsStr;
    hide Plain;
    hide JsonString;
    hide ActorPart;
    hide ActorField;
    hide Canonical;
    KindField(k, "," + actor);
  }

  lemma KindField(k: string, after: string)
    ensures "{\"kind\":\"" + (k + ("\"" + after)) == "{" + ("\"" + "kind" + "\":" + ("\"" + k + "\"" + after))
  {
    assert "{\"kind\":\"" == "{" + ("\"" + "kind" + "\":" + "\"");
  }

  lemma KindIsPlain(k: EventKind)
    ensures Plain(AsStr(k))
  {
    StartIsPlain(k);
    MiddleIsPlain(k);
    EndIsPlain(k);
    DeferredIsPlain(k);
    hide AsStr;
  }

  lemma StartIsPlain(k: EventKind)
    ensures k.AgentRegistered? || k.AgentRevoked? || k.TransferInitiated? ==> Plain(AsStr(k))
  {
  }

  lemma MiddleIsPlain(k: EventKind)
    ensures k.TransferPolicyDecision? || k.TransferScannerVerdict? || k.TransferAccepted? ==> Plain(AsStr(k))
  {
  }

  lemma EndIsPlain(k: EventKind)
    ensures k.TransferDelivered? || k.TransferRejected? || k.TransferExpired? ==> Plain(AsStr(k))
  {
  }

  lemma DeferredIsPlain(k: EventKind)
    ensures k.DeferredDecisionRequested? || k.SignedDecisionReceipt? ==> Plain(AsStr(k))
  {
  }

  /**
   Reading the bytes of an event gives exactly these members in this order: the kind's
   name, actor, subject, payload, timestamp text and previous hash, each under its own
   name; the payload is the event's, every object in it with its keys in order.
   */
  lemma EventReads(e: Event, ts: Timestamp, prev: string) returns (kind: string, payload: Tree)
    requires CanonicalText(e, ts, prev).Ok?
    ensures ts.Formatted? && e.payload.Object?
    ensures KindOf(kind) == Some(e.kind) && Represents(payload, e.payload)
    ensures Read(CanonicalText(e, ts, prev).value) == Some(TObject([
              Member("kind", TString(kind)), Member("actor", TString(e.actor)), Member("subject", TString(e.subject)),
              Member("payload", payload), Member("ts", TString(ts.rfc3339)), Member("prev", TString(prev))]))
  {
    var t := ts.rfc3339;
    kind := AsStr(e.kind);
    KindReadsBack(e.kind);
    HeadIsFields(e, t, prev);
    assert CanonicalText(e, ts, prev) == Ok(EventText(e, t, prev));
    hide AsStr;
    hide KindOf;
    hide EventText;
    hide Field;
    hide ActorField;
    hide Represents;
    hide CanonicalText;
    var inner := Field("kind", Str(kind), "," + ActorField(e.actor, e.subject, e.payload, t, prev));
    FieldStarts("kind", Str(kind), "," + ActorField(e.actor, e.subject, e.payload, t, prev));
    var members := FieldsRead(kind, e.actor, e.subject, e.payload, t, prev);
    payload := members[3].value;
    hide Read;
    hide ReadMembers;
    hide ReadValue;
    ReadsBrace(inner, members, "");
    WholeText("{" + inner, TObject(members));
  }

  lemma NamesArePlain()
    ensures Plain("kind") && Plain("actor") && Plain("subject") && Plain("payload") && Plain("ts") && Plain("prev")
  {
  }

  lemma TailRead(payload: Json, ts: string, prev: string) returns (members: seq<Member>)
    ensures ReadMembers(PayloadField(payload, ts, prev)) == Some((members, ""))
    ensures |members| == 3 && Represents(members[0].value, payload)
    ensures members == [Member("payload", members[0].value), Member("ts", TString(ts)), Member("prev", TString(prev))]
  {
    NamesArePlain();
    hide ReadMembers;
    hide Field;
    hide Plain;
    var p5 := ReadsLast("prev", Str(prev));
    var p4 := ReadsNext("ts", Str(ts), PrevField(prev), p5);
    members := ReadsNext("payload", payload, TsField(ts, prev), p4);
    StringOnly(p5[0], prev);
    StringOnly(p4[0], ts);
    hide Represents;
  }

  lemma StringOnly(m: Member, x: string)
    ensures Represents(m.value, Str(x)) <==> m == Member(m.name, TString(x))
  {
  }

  lemma FieldsRead(kind: string, actor: string, subject: string, payload: Json, ts: string, prev: string)
    returns (members: seq<Member>)
    ensures ReadMembers(Field("kind", Str(kind), "," + ActorField(actor, subject, payload, ts, prev))) == Some((members, ""))
    ensures |members| == 6 && Represents(members[3].value, payload)
    ensures members == [Member("kind", TString(kind)), Member("actor", TString(actor)), Member("subject", TString(subject)),
                        Member("payload", members[3].value), Member("ts", TString(ts)), Member("prev", TString(prev))]
  {
    NamesArePlain();
    hide ReadMembers;
    hide Field;
    hide Plain;
    hide PayloadField;
    hide Represents;
    var p3 := TailRead(payload, ts, prev);
    var p2 := ReadsNext("subject", Str(subject), PayloadField(payload, ts, prev), p3);
    var p1 := ReadsNext("actor", Str(actor), SubjectField(subject, payload, ts, prev), p2);
    members := ReadsNext("kind", Str(kind), ActorField(actor, subject, payload, ts, prev), p1);
    StringOnly(p2[0], subject);
    StringOnly(p1[0], actor);
    StringOnly(members[0], kind);
    hide SubjectField;
    hide ActorField;
    SixMembers(members, p1, p2, p3);
  }

  lemma SixMembers(p0: seq<Member>, p1: seq<Member>, p2: seq<Member>, p3: seq<Member>)
    requires |p3| == 3 && |p2| == 4 && |p1| == 5 && |p0| == 6
    requires p0[1..] == p1 && p1[1..] == p2 && p2[1..] == p3
    ensures p0 == [p0[0], p1[0], p2[0], p3[0], p3[1], p3[2]]
  {
  }

  lemma FieldStarts(name: string, v: Json, after: string)
    ensures Field(name, v, after) != "" && Field(name, v, after)[0] == '"'
  {
  }

  lemma WholeText(s: string, t: Tree)
    requires s != "" && !IsSpace(s[0]) && ReadValue(s) == Some((t, ""))
    ensures Read(s) == Some(t)
  {
    SkipNothing(s);
    SkipNothing("");
    hide ReadValue;
    hide Skip;
  }
}
