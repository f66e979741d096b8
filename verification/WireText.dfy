/**
 The wire texts spelled out: for each encoder which fields it refuses and in which
 order, the text it prints, and what a reader finds that looks lines up by name.
 */
module WireText {
  import opened Wrappers
  import opened Text
  import opened Wire

  // ---------- fields, by code point ----------

  predicate LineOrEmpty(s: string) { forall c | c in s :: 0 < c as int < 128 && c as int != 10 && c as int != 13 }

  predicate Line(s: string) { s != "" && LineOrEmpty(s) }

  predicate Nonce(s: string) { 32 <= |s| <= 128 && forall c | c in s :: c in "0123456789abcdefABCDEF" }

  lemma FieldsMean(s: string)
    ensures LineOrEmpty(s) <==> OptionalLine(s)
    ensures Line(s) <==> AsciiLine(s)
    ensures Nonce(s) <==> ValidNonce(s)
  {
    forall c: char ensures c in "0123456789abcdefABCDEF" <==> HexDigit(c) {
      HexDigits(c);
    }
    hide HexDigit;
  }

  lemma HexDigits(c: char)
    ensures c in "0123456789abcdefABCDEF" <==> HexDigit(c)
  {
    var s := "0123456789abcdefABCDEF";
    if '0' <= c <= '9' { assert s[c as int - '0' as int] == c; }
    if 'a' <= c <= 'f' { assert s[10 + (c as int - 'a' as int)] == c; }
    if 'A' <= c <= 'F' { assert s[16 + (c as int - 'A' as int)] == c; }
  }

  // ---------- lines ----------

  lemma {:induction false} JoinSnoc(parts: seq<string>, last: string)
    requires parts != []
    ensures Join('\n', parts + [last]) == Join('\n', parts) + "\n" + last
  {
    if |parts| > 1 {
      JoinSnoc(parts[1..], last);
      assert (parts + [last])[1..] == parts[1..] + [last];
    }
  }

  /** A line as its key and value; `lead` is the key with the line feed before it. */
  datatype Part = Part(key: string, lead: string, value: string)

  predicate Led(p: Part) { p.lead == "\n" + p.key }

  function LineOf(p: Part): string { p.key + p.value }

  lemma AddLine(lines: seq<string>, text: string, p: Part)
    requires lines != [] && Join('\n', lines) == text && Led(p)
    ensures Join('\n', lines + [LineOf(p)]) == text + p.lead + p.value
  {
    JoinSnoc(lines, LineOf(p));
    hide Join;
  }

  lemma Join5(h: string, a: Part, b: Part, c: Part, d: Part, e: Part)
    requires Led(a) && Led(b) && Led(c) && Led(d) && Led(e)
    ensures Join('\n', [h, LineOf(a), LineOf(b), LineOf(c), LineOf(d), LineOf(e)]) ==
            h + a.lead + a.value + b.lead + b.value + c.lead + c.value + d.lead + d.value + e.lead + e.value
  {
    assert Join('\n', [h]) == h;
    hide Join;
    hide LineOf;
    AddLine([h], h, a);
    assert [h] + [LineOf(a)] == [h, LineOf(a)];
    AddLine([h, LineOf(a)], h + a.lead + a.value, b);
    assert [h, LineOf(a)] + [LineOf(b)] == [h, LineOf(a), LineOf(b)];
    AddLine([h, LineOf(a), LineOf(b)], h + a.lead + a.value + b.lead + b.value, c);
    assert [h, LineOf(a), LineOf(b)] + [LineOf(c)] == [h, LineOf(a), LineOf(b), LineOf(c)];
    AddLine([h, LineOf(a), LineOf(b), LineOf(c)], h + a.lead + a.value + b.lead + b.value + c.lead + c.value, d);
    assert [h, LineOf(a), LineOf(b), LineOf(c)] + [LineOf(d)] == [h, LineOf(a), LineOf(b), LineOf(c), LineOf(d)];
    AddLine([h, LineOf(a), LineOf(b), LineOf(c), LineOf(d)], h + a.lead + a.value + b.lead + b.value + c.lead + c.value + d.lead + d.value, e);
    assert [h, LineOf(a), LineOf(b), LineOf(c), LineOf(d)] + [LineOf(e)] == [h, LineOf(a), LineOf(b), LineOf(c), LineOf(d), LineOf(e)];
  }

  lemma Join6(h: string, a: Part, b: Part, c: Part, d: Part, e: Part, f: Part)
    requires Led(a) && Led(b) && Led(c) && Led(d) && Led(e) && Led(f)
    ensures Join('\n', [h, LineOf(a), LineOf(b), LineOf(c), LineOf(d), LineOf(e), LineOf(f)]) ==
            h + a.lead + a.value + b.lead + b.value + c.lead + c.value + d.lead + d.value + e.lead + e.value + f.lead + f.value
  {
    Join5(h, a, b, c, d, e);
    hide Join;
    hide LineOf;
    var lines := [h, LineOf(a), LineOf(b), LineOf(c), LineOf(d), LineOf(e)];
    AddLine(lines, h + a.lead + a.value + b.lead + b.value + c.lead + c.value + d.lead + d.value + e.lead + e.value, f);
    assert lines + [LineOf(f)] == [h, LineOf(a), LineOf(b), LineOf(c), LineOf(d), LineOf(e), LineOf(f)];
  }

  lemma Join7(h: string, a: Part, b: Part, c: Part, d: Part, e: Part, f: Part, g: Part)
    requires Led(a) && Led(b) && Led(c) && Led(d) && Led(e) && Led(f) && Led(g)
    ensures Join('\n', [h, LineOf(a), LineOf(b), LineOf(c), LineOf(d), LineOf(e), LineOf(f), LineOf(g)]) ==
            h + a.lead + a.value + b.lead + b.value + c.lead + c.value + d.lead + d.value + e.lead + e.value + f.lead + f.value + g.lead + g.value
  {
    Join6(h, a, b, c, d, e, f);
    hide Join;
    hide LineOf;
    var lines := [h, LineOf(a), LineOf(b), LineOf(c), LineOf(d), LineOf(e), LineOf(f)];
    AddLine(lines, h + a.lead + a.value + b.lead + b.value + c.lead + c.value + d.lead + d.value + e.lead + e.value + f.lead + f.value, g);
    assert lines + [LineOf(g)] == [h, LineOf(a), LineOf(b), LineOf(c), LineOf(d), LineOf(e), LineOf(f), LineOf(g)];
  }

  // ---------- looking a line up by its name ----------

  /** The rest of the first line that starts with `name=`. */
  function Lookup(lines: seq<string>, name: string): Option<string> {
    if lines == [] then None
    else if name + "=" <= lines[0] then Some(lines[0][|name| + 1..])
    else Lookup(lines[1..], name)
  }

  function FieldOf(text: string, name: string): Option<string> { Lookup(Split('\n', text), name) }

  lemma LineNamesItself(name: string, other: string, value: string)
    requires '=' !in name && '=' !in other
    ensures name + "=" <= other + "=" + value <==> name == other
  {
    if name + "=" <= other + "=" + value {
      var rest := (other + "=" + value)[|name| + 1..];
      assert name + (['='] + rest) == name + "=" + rest == other + "=" + value == other + (['='] + value);
      FirstOccurrenceUnique('=', name, rest, other, value);
    }
  }

  /** Lines that each carry their own name are found by it. */
  lemma {:induction false} LookupFinds(names: seq<string>, lines: seq<string>, values: seq<string>, i: nat)
    requires |names| == |lines| == |values| && i < |names|
    requires forall j | 0 <= j < |names| :: '=' !in names[j] && lines[j] == names[j] + "=" + values[j]
    requires forall j, k | 0 <= j < k < |names| :: names[j] != names[k]
    ensures Lookup(lines, names[i]) == Some(values[i])
  {
    LineNamesItself(names[i], names[0], values[0]);
    if i == 0 {
      assert lines[0][|names[0]| + 1..] == values[0];
    } else {
      assert names[i] != names[0];
      LookupFinds(names[1..], lines[1..], values[1..], i - 1);
    }
  }

  lemma HeaderHasNoName(header: string, lines: seq<string>, name: string)
    requires '=' !in header
    ensures Lookup([header] + lines, name) == Lookup(lines, name)
  {
    assert |name| < |header| ==> header[|name|] in header;
    assert ([header] + lines)[1..] == lines;
  }

  lemma Found(lines: seq<string>, names: seq<string>, values: seq<string>)
    requires |lines| == |names| + 1 && |values| == |names| && '=' !in lines[0]
    requires forall j | 0 <= j < |names| :: '=' !in names[j] && lines[j + 1] == names[j] + "=" + values[j]
    requires forall j, k | 0 <= j < k < |names| :: names[j] != names[k]
    ensures forall i | 0 <= i < |names| :: Lookup(lines, names[i]) == Some(values[i])
  {
    forall i | 0 <= i < |names| ensures Lookup(lines, names[i]) == Some(values[i]) {
      LookupFinds(names, lines[1..], values, i);
      HeaderHasNoName(lines[0], lines[1..], names[i]);
      assert lines == [lines[0]] + lines[1..];
    }
  }

  /** The first of at most seven checks to fail decides. */
  lemma Unrolled(checks: seq<(bool, WireError)>)
    requires 4 <= |checks| <= 7
    ensures FirstFailure(checks) ==
            if !checks[0].0 then Some(checks[0].1)
            else if !checks[1].0 then Some(checks[1].1)
            else if !checks[2].0 then Some(checks[2].1)
            else if !checks[3].0 then Some(checks[3].1)
            else if |checks| > 4 && !checks[4].0 then Some(checks[4].1)
            else if |checks| > 5 && !checks[5].0 then Some(checks[5].1)
            else if |checks| > 6 && !checks[6].0 then Some(checks[6].1)
            else None
  {
    FailureFrom(checks, 0);
    FailureFrom(checks, 1);
    FailureFrom(checks, 2);
    FailureFrom(checks, 3);
    FailureFrom(checks, 4);
    FailureFrom(checks, 5);
    FailureFrom(checks, 6);
    assert checks[0..] == checks;
    hide FirstFailure;
  }

  lemma FailureFrom(checks: seq<(bool, WireError)>, i: nat)
    requires i <= 6 && |checks| <= 7
    ensures i < |checks| ==>
              FirstFailure(checks[i..]) == if !checks[i].0 then Some(checks[i].1) else FirstFailure(checks[i + 1..])
    ensures i == |checks| ==> FirstFailure(checks[i..]) == None
    ensures |checks| == 7 ==> FirstFailure(checks[7..]) == None
  {
    if i < |checks| { assert checks[i..][1..] == checks[i + 1..]; }
  }

  /** The names and printed values of a message, in order. */
  function Fields(m: Message): seq<(string, string)> {
    match m
    case Register(publicKeyHex, org, name, nonce, ts) =>
      [("pub", publicKeyHex), ("org", org), ("name", name), ("nonce", nonce), ("ts", PrintInt(ts))]
    case TransferIntent(sender, recipient, size, mime, filename, nonce, ts) =>
      [("sender", sender), ("recipient", recipient), ("size", PrintInt(size)), ("mime", mime), ("filename", filename), ("nonce", nonce), ("ts", PrintInt(ts))]
    case DataTicket(transfer, recipient, dataPlane, expires, nonce) =>
      [("transfer", transfer), ("recipient", recipient), ("data_plane", dataPlane), ("expires", PrintInt(expires)), ("nonce", nonce)]
    case RotateKey(agent, oldPub, newPub, nonce, ts) =>
      [("agent", agent), ("old_pub", oldPub), ("new_pub", newPub), ("nonce", nonce), ("ts", PrintInt(ts))]
    case TransferReceipt(recipient, transfer, action, nonce, ts) =>
      [("recipient", recipient), ("transfer", transfer), ("action", action), ("nonce", nonce), ("ts", PrintInt(ts))]
    case DecisionRequest(recipient, transfer, decision, eta, nonce, ts) =>
      [("recipient", recipient), ("transfer", transfer), ("decision", decision), ("eta_secs", PrintInt(eta)), ("nonce", nonce), ("ts", PrintInt(ts))]
    case DecisionResponse(recipient, transfer, decision, outcome, reason, nonce, ts) =>
      [("recipient", recipient), ("transfer", transfer), ("decision", decision), ("outcome", outcome), ("reason", reason), ("nonce", nonce), ("ts", PrintInt(ts))]
  }

  lemma FieldsArePrinted(m: Message)
    ensures |Fields(m)| == Arity(KindOf(m))
    ensures forall i | 0 <= i < |Fields(m)| :: Fields(m)[i].0 + "=" == Keys(KindOf(m))[i] && Fields(m)[i].1 == Values(m)[i]
  {
    hide PrintInt;
    var keys, fs := Keys(KindOf(m)), Fields(m);
    assert fs[0].0 + "=" == keys[0] && fs[1].0 + "=" == keys[1] && fs[2].0 + "=" == keys[2];
    assert fs[3].0 + "=" == keys[3] && fs[4].0 + "=" == keys[4];
    assert |fs| > 5 ==> fs[5].0 + "=" == keys[5];
    assert |fs| > 6 ==> fs[6].0 + "=" == keys[6];
  }

  lemma NamesAreDistinct(m: Message)
    ensures forall i | 0 <= i < |Fields(m)| :: '=' !in Fields(m)[i].0
    ensures forall i, j | 0 <= i < j < |Fields(m)| :: Fields(m)[i].0 != Fields(m)[j].0
  {
    hide PrintInt;
  }

  lemma HeaderHasNoSign(v: Version, k: Kind)
    ensures '=' !in Header(v, k)
  {
    NameHasNoSign(k);
    hide KindName;
  }

  lemma NameHasNoSign(k: Kind)
    ensures '=' !in KindName(k)
  {
  }

  /** Every field of an encoded message is found under its name, and no other value is. */
  lemma EncodedFieldsAreFound(v: Version, m: Message, i: nat)
    requires Defined(v, m) && Encode(v, m).Ok? && i < |Fields(m)|
    ensures FieldOf(Encode(v, m).value, Fields(m)[i].0) == Some(Fields(m)[i].1)
  {
    hide Checks;
    var lines, fs := Lines(v, m), Fields(m);
    LinesAreSingle(v, m);
    JoinThenSplit('\n', lines);
    FieldsArePrinted(m);
    NamesAreDistinct(m);
    HeaderHasNoSign(v, KindOf(m));
    var names := seq(|fs|, j requires 0 <= j < |fs| => fs[j].0);
    var values := seq(|fs|, j requires 0 <= j < |fs| => fs[j].1);
    assert lines[0] == Header(v, KindOf(m));
    hide Fields;
    hide Keys;
    hide Values;
    hide Header;
    Found(lines, names, values);
    hide Lookup;
    assert names[i] == fs[i].0;
  }

  // ---------- the texts ----------

  lemma RegistrationHeader(v: Version)
    ensures Header(v, KRegister) == (if v.V1? then "spize-register:v1" else "aex-register:v2")
  {
  }

  lemma RegistrationLines(v: Version, publicKeyHex: string, org: string, name: string, nonce: string, ts: I64)
    ensures Lines(v, Register(publicKeyHex, org, name, nonce, ts)) ==
            [(if v.V1? then "spize-register:v1" else "aex-register:v2"),
             "pub=" + publicKeyHex, "org=" + org, "name=" + name, "nonce=" + nonce, "ts=" + PrintInt(ts)]
  {
    hide PrintInt;
    hide Header;
    RegistrationHeader(v);
    var m := Register(publicKeyHex, org, name, nonce, ts);
    var keys, vs, lines := Keys(KRegister), Values(m), Lines(v, m);
    assert keys[0] == "pub=" && vs[0] == publicKeyHex;
    assert keys[1] == "org=" && vs[1] == org;
    assert keys[2] == "name=" && vs[2] == name;
    assert keys[3] == "nonce=" && vs[3] == nonce;
    assert keys[4] == "ts=" && vs[4] == PrintInt(ts);
    hide Keys;
    hide Values;
    assert |lines| == 6;
  }

  lemma RegistrationPrinted(v: Version, publicKeyHex: string, org: string, name: string, nonce: string, ts: I64)
    ensures Join('\n', Lines(v, Register(publicKeyHex, org, name, nonce, ts))) ==
            (if v.V1? then "spize-register:v1" else "aex-register:v2")
               + "\npub=" + publicKeyHex
               + "\norg=" + org
               + "\nname=" + name
               + "\nnonce=" + nonce
               + "\nts=" + PrintInt(ts)
  {
    RegistrationLines(v, publicKeyHex, org, name, nonce, ts);
    hide Lines;
    hide PrintInt;
    hide Join;
    Join5((if v.V1? then "spize-register:v1" else "aex-register:v2"),
          Part("pub=", "\npub=", publicKeyHex),
          Part("org=", "\norg=", org),
          Part("name=", "\nname=", name),
          Part("nonce=", "\nnonce=", nonce),
          Part("ts=", "\nts=", PrintInt(ts)));
  }

  /** The register encoders of both versions. */
  lemma RegistrationEncodes(v: Version, publicKeyHex: string, org: string, name: string, nonce: string, ts: I64)
    ensures Encode(v, Register(publicKeyHex, org, name, nonce, ts)) ==
            if !Line(publicKeyHex) then Err(BadField("public_key_hex"))
            else if !Line(org) then Err(BadField("org"))
            else if !Line(name) then Err(BadField("name"))
            else if !Nonce(nonce) then Err(BadNonce)
            else Ok((if v.V1? then "spize-register:v1" else "aex-register:v2")
               + "\npub=" + publicKeyHex
               + "\norg=" + org
               + "\nname=" + name
               + "\nnonce=" + nonce
               + "\nts=" + PrintInt(ts))
  {
    hide Lines;
    hide PrintInt;
    hide Join;
    hide OptionalLine;
    hide AsciiLine;
    hide LineOrEmpty;
    hide Line;
    hide ValidNonce;
    hide Nonce;
    hide FirstFailure;
    FieldsMean(publicKeyHex);
    FieldsMean(org);
    FieldsMean(name);
    FieldsMean(nonce);
    RegistrationPrinted(v, publicKeyHex, org, name, nonce, ts);
    Unrolled(Checks(Register(publicKeyHex, org, name, nonce, ts)));
  }

  lemma TransferIntentHeader(v: Version)
    ensures Header(v, KIntent) == (if v.V1? then "spize-transfer-intent:v1" else "aex-transfer-intent:v2")
  {
  }

  lemma TransferIntentLines(
    v: Version, sender: string, recipient: string, size: U64, mime: string, filename: string, nonce: string, ts: I64)
    ensures Lines(v, TransferIntent(sender, recipient, size, mime, filename, nonce, ts)) ==
            [(if v.V1? then "spize-transfer-intent:v1" else "aex-transfer-intent:v2"),
             "sender=" + sender, "recipient=" + recipient, "size=" + PrintInt(size), "mime=" + mime, "filename=" + filename, "nonce=" + nonce, "ts=" + PrintInt(ts)]
  {
    hide PrintInt;
    hide Header;
    TransferIntentHeader(v);
    var m := TransferIntent(sender, recipient, size, mime, filename, nonce, ts);
    var keys, vs, lines := Keys(KIntent), Values(m), Lines(v, m);
    assert keys[0] == "sender=" && vs[0] == sender;
    assert keys[1] == "recipient=" && vs[1] == recipient;
    assert keys[2] == "size=" && vs[2] == PrintInt(size);
    assert keys[3] == "mime=" && vs[3] == mime;
    assert keys[4] == "filename=" && vs[4] == filename;
    assert keys[5] == "nonce=" && vs[5] == nonce;
    assert keys[6] == "ts=" && vs[6] == PrintInt(ts);
    hide Keys;
    hide Values;
    assert |lines| == 8;
  }

  lemma TransferIntentPrinted(
    v: Version, sender: string, recipient: string, size: U64, mime: string, filename: string, nonce: string, ts: I64)
    ensures Join('\n', Lines(v, TransferIntent(sender, recipient, size, mime, filename, nonce, ts))) ==
            (if v.V1? then "spize-transfer-intent:v1" else "aex-transfer-intent:v2")
               + "\nsender=" + sender
               + "\nrecipient=" + recipient
               + "\nsize=" + PrintInt(size)
               + "\nmime=" + mime
               + "\nfilename=" + filename
               + "\nnonce=" + nonce
               + "\nts=" + PrintInt(ts)
  {
    TransferIntentLines(v, sender, recipient, size, mime, filename, nonce, ts);
    hide Lines;
    hide PrintInt;
    hide Join;
    Join7((if v.V1? then "spize-transfer-intent:v1" else "aex-transfer-intent:v2"),
          Part("sender=", "\nsender=", sender),
          Part("recipient=", "\nrecipient=", recipient),
          Part("size=", "\nsize=", PrintInt(size)),
          Part("mime=", "\nmime=", mime),
          Part("filename=", "\nfilename=", filename),
          Part("nonce=", "\nnonce=", nonce),
          Part("ts=", "\nts=", PrintInt(ts)));
  }

  /** The transfer-intent encoders of both versions. */
  lemma TransferIntentEncodes(
    v: Version, sender: string, recipient: string, size: U64, mime: string, filename: string, nonce: string, ts: I64)
    ensures Encode(v, TransferIntent(sender, recipient, size, mime, filename, nonce, ts)) ==
            if !Line(sender) then Err(BadField("sender_agent_id"))
            else if !Line(recipient) then Err(BadField("recipient"))
            else if !LineOrEmpty(mime) then Err(BadField("declared_mime"))
            else if !LineOrEmpty(filename) then Err(BadField("filename"))
            else if !Nonce(nonce) then Err(BadNonce)
            else Ok((if v.V1? then "spize-transfer-intent:v1" else "aex-transfer-intent:v2")
               + "\nsender=" + sender
               + "\nrecipient=" + recipient
               + "\nsize=" + PrintInt(size)
               + "\nmime=" + mime
               + "\nfilename=" + filename
               + "\nnonce=" + nonce
               + "\nts=" + PrintInt(ts))
  {
    hide Lines;
    hide PrintInt;
    hide Join;
    hide OptionalLine;
    hide AsciiLine;
    hide LineOrEmpty;
    hide Line;
    hide ValidNonce;
    hide Nonce;
    hide FirstFailure;
    FieldsMean(sender);
    FieldsMean(recipient);
    FieldsMean(mime);
    FieldsMean(filename);
    FieldsMean(nonce);
    TransferIntentPrinted(v, sender, recipient, size, mime, filename, nonce, ts);
    Unrolled(Checks(TransferIntent(sender, recipient, size, mime, filename, nonce, ts)));
  }

  lemma DataTicketHeader(v: Version)
    ensures Header(v, KTicket) == (if v.V1? then "spize-data-ticket:v1" else "aex-data-ticket:v2")
  {
  }

  lemma DataTicketLines(v: Version, transfer: string, recipient: string, dataPlane: string, expires: I64, nonce: string)
    ensures Lines(v, DataTicket(transfer, recipient, dataPlane, expires, nonce)) ==
            [(if v.V1? then "spize-data-ticket:v1" else "aex-data-ticket:v2"),
             "transfer=" + transfer, "recipient=" + recipient, "data_plane=" + dataPlane, "expires=" + PrintInt(expires), "nonce=" + nonce]
  {
    hide PrintInt;
    hide Header;
    DataTicketHeader(v);
    var m := DataTicket(transfer, recipient, dataPlane, expires, nonce);
    var keys, vs, lines := Keys(KTicket), Values(m), Lines(v, m);
    assert keys[0] == "transfer=" && vs[0] == transfer;
    assert keys[1] == "recipient=" && vs[1] == recipient;
    assert keys[2] == "data_plane=" && vs[2] == dataPlane;
    assert keys[3] == "expires=" && vs[3] == PrintInt(expires);
    assert keys[4] == "nonce=" && vs[4] == nonce;
    hide Keys;
    hide Values;
    assert |lines| == 6;
  }

  lemma DataTicketPrinted(
    v: Version, transfer: string, recipient: string, dataPlane: string, expires: I64, nonce: string)
    ensures Join('\n', Lines(v, DataTicket(transfer, recipient, dataPlane, expires, nonce))) ==
            (if v.V1? then "spize-data-ticket:v1" else "aex-data-ticket:v2")
               + "\ntransfer=" + transfer
               + "\nrecipient=" + recipient
               + "\ndata_plane=" + dataPlane
               + "\nexpires=" + PrintInt(expires)
               + "\nnonce=" + nonce
  {
    DataTicketLines(v, transfer, recipient, dataPlane, expires, nonce);
    hide Lines;
    hide PrintInt;
    hide Join;
    Join5((if v.V1? then "spize-data-ticket:v1" else "aex-data-ticket:v2"),
          Part("transfer=", "\ntransfer=", transfer),
          Part("recipient=", "\nrecipient=", recipient),
          Part("data_plane=", "\ndata_plane=", dataPlane),
          Part("expires=", "\nexpires=", PrintInt(expires)),
          Part("nonce=", "\nnonce=", nonce));
  }

  /** The data-ticket encoders of both versions. */
  lemma DataTicketEncodes(
    v: Version, transfer: string, recipient: string, dataPlane: string, expires: I64, nonce: string)
    ensures Encode(v, DataTicket(transfer, recipient, dataPlane, expires, nonce)) ==
            if !Line(transfer) then Err(BadField("transfer_id"))
            else if !Line(recipient) then Err(BadField("recipient_agent_id"))
            else if !Line(dataPlane) then Err(BadField("data_plane_url"))
            else if !Nonce(nonce) then Err(BadNonce)
            else Ok((if v.V1? then "spize-data-ticket:v1" else "aex-data-ticket:v2")
               + "\ntransfer=" + transfer
               + "\nrecipient=" + recipient
               + "\ndata_plane=" + dataPlane
               + "\nexpires=" + PrintInt(expires)
               + "\nnonce=" + nonce)
  {
    hide Lines;
    hide PrintInt;
    hide Join;
    hide OptionalLine;
    hide AsciiLine;
    hide LineOrEmpty;
    hide Line;
    hide ValidNonce;
    hide Nonce;
    hide FirstFailure;
    FieldsMean(transfer);
    FieldsMean(recipient);
    FieldsMean(dataPlane);
    FieldsMean(nonce);
    DataTicketPrinted(v, transfer, recipient, dataPlane, expires, nonce);
    Unrolled(Checks(DataTicket(transfer, recipient, dataPlane, expires, nonce)));
  }

  lemma KeyRotationHeader(v: Version)
    ensures Header(v, KRotate) == (if v.V1? then "spize-rotate-key:v1" else "aex-rotate-key:v2")
  {
  }

  lemma KeyRotationLines(v: Version, agent: string, oldPub: string, newPub: string, nonce: string, ts: I64)
    ensures Lines(v, RotateKey(agent, oldPub, newPub, nonce, ts)) ==
            [(if v.V1? then "spize-rotate-key:v1" else "aex-rotate-key:v2"),
             "agent=" + agent, "old_pub=" + oldPub, "new_pub=" + newPub, "nonce=" + nonce, "ts=" + PrintInt(ts)]
  {
    hide PrintInt;
    hide Header;
    KeyRotationHeader(v);
    var m := RotateKey(agent, oldPub, newPub, nonce, ts);
    var keys, vs, lines := Keys(KRotate), Values(m), Lines(v, m);
    assert keys[0] == "agent=" && vs[0] == agent;
    assert keys[1] == "old_pub=" && vs[1] == oldPub;
    assert keys[2] == "new_pub=" && vs[2] == newPub;
    assert keys[3] == "nonce=" && vs[3] == nonce;
    assert keys[4] == "ts=" && vs[4] == PrintInt(ts);
    hide Keys;
    hide Values;
    assert |lines| == 6;
  }

  lemma KeyRotationPrinted(v: Version, agent: string, oldPub: string, newPub: string, nonce: string, ts: I64)
    ensures Join('\n', Lines(v, RotateKey(agent, oldPub, newPub, nonce, ts))) ==
            (if v.V1? then "spize-rotate-key:v1" else "aex-rotate-key:v2")
               + "\nagent=" + agent
               + "\nold_pub=" + oldPub
               + "\nnew_pub=" + newPub
               + "\nnonce=" + nonce
               + "\nts=" + PrintInt(ts)
  {
    KeyRotationLines(v, agent, oldPub, newPub, nonce, ts);
    hide Lines;
    hide PrintInt;
    hide Join;
    Join5((if v.V1? then "spize-rotate-key:v1" else "aex-rotate-key:v2"),
          Part("agent=", "\nagent=", agent),
          Part("old_pub=", "\nold_pub=", oldPub),
          Part("new_pub=", "\nnew_pub=", newPub),
          Part("nonce=", "\nnonce=", nonce),
          Part("ts=", "\nts=", PrintInt(ts)));
  }

  /** The rotate-key encoders of both versions. */
  lemma KeyRotationEncodes(v: Version, agent: string, oldPub: string, newPub: string, nonce: string, ts: I64)
    ensures Encode(v, RotateKey(agent, oldPub, newPub, nonce, ts)) ==
            if !Line(agent) then Err(BadField("agent_id"))
            else if !Line(oldPub) then Err(BadField("old_public_key_hex"))
            else if !Line(newPub) then Err(BadField("new_public_key_hex"))
            else if !Nonce(nonce) then Err(BadNonce)
            else if oldPub == newPub then Err(SameKey)
            else Ok((if v.V1? then "spize-rotate-key:v1" else "aex-rotate-key:v2")
               + "\nagent=" + agent
               + "\nold_pub=" + oldPub
               + "\nnew_pub=" + newPub
               + "\nnonce=" + nonce
               + "\nts=" + PrintInt(ts))
  {
    hide Lines;
    hide PrintInt;
    hide Join;
    hide OptionalLine;
    hide AsciiLine;
    hide LineOrEmpty;
    hide Line;
    hide ValidNonce;
    hide Nonce;
    hide FirstFailure;
    FieldsMean(agent);
    FieldsMean(oldPub);
    FieldsMean(newPub);
    FieldsMean(nonce);
    KeyRotationPrinted(v, agent, oldPub, newPub, nonce, ts);
    Unrolled(Checks(RotateKey(agent, oldPub, newPub, nonce, ts)));
  }

  lemma TransferReceiptHeader(v: Version)
    ensures Header(v, KReceipt) == (if v.V1? then "spize-transfer-receipt:v1" else "aex-transfer-receipt:v2")
  {
  }

  lemma TransferReceiptLines(v: Version, recipient: string, transfer: string, action: string, nonce: string, ts: I64)
    ensures Lines(v, TransferReceipt(recipient, transfer, action, nonce, ts)) ==
            [(if v.V1? then "spize-transfer-receipt:v1" else "aex-transfer-receipt:v2"),
             "recipient=" + recipient, "transfer=" + transfer, "action=" + action, "nonce=" + nonce, "ts=" + PrintInt(ts)]
  {
    hide PrintInt;
    hide Header;
    TransferReceiptHeader(v);
    var m := TransferReceipt(recipient, transfer, action, nonce, ts);
    var keys, vs, lines := Keys(KReceipt), Values(m), Lines(v, m);
    assert keys[0] == "recipient=" && vs[0] == recipient;
    assert keys[1] == "transfer=" && vs[1] == transfer;
    assert keys[2] == "action=" && vs[2] == action;
    assert keys[3] == "nonce=" && vs[3] == nonce;
    assert keys[4] == "ts=" && vs[4] == PrintInt(ts);
    hide Keys;
    hide Values;
    assert |lines| == 6;
  }

  lemma TransferReceiptPrinted(v: Version, recipient: string, transfer: string, action: string, nonce: string, ts: I64)
    ensures Join('\n', Lines(v, TransferReceipt(recipient, transfer, action, nonce, ts))) ==
            (if v.V1? then "spize-transfer-receipt:v1" else "aex-transfer-receipt:v2")
               + "\nrecipient=" + recipient
               + "\ntransfer=" + transfer
               + "\naction=" + action
               + "\nnonce=" + nonce
               + "\nts=" + PrintInt(ts)
  {
    TransferReceiptLines(v, recipient, transfer, action, nonce, ts);
    hide Lines;
    hide PrintInt;
    hide Join;
    Join5((if v.V1? then "spize-transfer-receipt:v1" else "aex-transfer-receipt:v2"),
          Part("recipient=", "\nrecipient=", recipient),
          Part("transfer=", "\ntransfer=", transfer),
          Part("action=", "\naction=", action),
          Part("nonce=", "\nnonce=", nonce),
          Part("ts=", "\nts=", PrintInt(ts)));
  }

  /** The transfer-receipt encoders of both versions. */
  lemma TransferReceiptEncodes(v: Version, recipient: string, transfer: string, action: string, nonce: string, ts: I64)
    ensures Encode(v, TransferReceipt(recipient, transfer, action, nonce, ts)) ==
            if !Line(recipient) then Err(BadField("recipient_agent_id"))
            else if !Line(transfer) then Err(BadField("transfer_id"))
            else if !Line(action) then Err(BadField("action"))
            else if !Nonce(nonce) then Err(BadNonce)
            else if !(action == "download" || action == "ack" || action == "inbox" || action == "request_ticket") then Err(BadAction)
            else Ok((if v.V1? then "spize-transfer-receipt:v1" else "aex-transfer-receipt:v2")
               + "\nrecipient=" + recipient
               + "\ntransfer=" + transfer
               + "\naction=" + action
               + "\nnonce=" + nonce
               + "\nts=" + PrintInt(ts))
  {
    hide Lines;
    hide PrintInt;
    hide Join;
    hide OptionalLine;
    hide AsciiLine;
    hide LineOrEmpty;
    hide Line;
    hide ValidNonce;
    hide Nonce;
    hide FirstFailure;
    FieldsMean(recipient);
    FieldsMean(transfer);
    FieldsMean(action);
    FieldsMean(nonce);
    TransferReceiptPrinted(v, recipient, transfer, action, nonce, ts);
    Unrolled(Checks(TransferReceipt(recipient, transfer, action, nonce, ts)));
  }

  lemma DecisionRequestHeader()
    ensures Header(V2, KRequest) == "aex-decision-request:v2"
  {
  }

  lemma DecisionRequestLines(recipient: string, transfer: string, decision: string, eta: U64, nonce: string, ts: I64)
    ensures Lines(V2, DecisionRequest(recipient, transfer, decision, eta, nonce, ts)) ==
            ["aex-decision-request:v2",
             "recipient=" + recipient, "transfer=" + transfer, "decision=" + decision, "eta_secs=" + PrintInt(eta), "nonce=" + nonce, "ts=" + PrintInt(ts)]
  {
    hide PrintInt;
    hide Header;
    DecisionRequestHeader();
    var m := DecisionRequest(recipient, transfer, decision, eta, nonce, ts);
    var keys, vs, lines := Keys(KRequest), Values(m), Lines(V2, m);
    assert keys[0] == "recipient=" && vs[0] == recipient;
    assert keys[1] == "transfer=" && vs[1] == transfer;
    assert keys[2] == "decision=" && vs[2] == decision;
    assert keys[3] == "eta_secs=" && vs[3] == PrintInt(eta);
    assert keys[4] == "nonce=" && vs[4] == nonce;
    assert keys[5] == "ts=" && vs[5] == PrintInt(ts);
    hide Keys;
    hide Values;
    assert |lines| == 7;
  }

  lemma DecisionRequestPrinted(recipient: string, transfer: string, decision: string, eta: U64, nonce: string, ts: I64)
    ensures Join('\n', Lines(V2, DecisionRequest(recipient, transfer, decision, eta, nonce, ts))) ==
            "aex-decision-request:v2"
               + "\nrecipient=" + recipient
               + "\ntransfer=" + transfer
               + "\ndecision=" + decision
               + "\neta_secs=" + PrintInt(eta)
               + "\nnonce=" + nonce
               + "\nts=" + PrintInt(ts)
  {
    DecisionRequestLines(recipient, transfer, decision, eta, nonce, ts);
    hide Lines;
    hide PrintInt;
    hide Join;
    Join6("aex-decision-request:v2",
          Part("recipient=", "\nrecipient=", recipient),
          Part("transfer=", "\ntransfer=", transfer),
          Part("decision=", "\ndecision=", decision),
          Part("eta_secs=", "\neta_secs=", PrintInt(eta)),
          Part("nonce=", "\nnonce=", nonce),
          Part("ts=", "\nts=", PrintInt(ts)));
  }

  /** The decision-request encoder of version 2. */
  lemma DecisionRequestEncodes(recipient: string, transfer: string, decision: string, eta: U64, nonce: string, ts: I64)
    ensures Encode(V2, DecisionRequest(recipient, transfer, decision, eta, nonce, ts)) ==
            if !Line(recipient) then Err(BadField("recipient_agent_id"))
            else if !Line(transfer) then Err(BadField("transfer_id"))
            else if !Line(decision) then Err(BadField("decision_id"))
            else if !Nonce(nonce) then Err(BadNonce)
            else Ok("aex-decision-request:v2"
               + "\nrecipient=" + recipient
               + "\ntransfer=" + transfer
               + "\ndecision=" + decision
               + "\neta_secs=" + PrintInt(eta)
               + "\nnonce=" + nonce
               + "\nts=" + PrintInt(ts))
  {
    hide Lines;
    hide PrintInt;
    hide Join;
    hide OptionalLine;
    hide AsciiLine;
    hide LineOrEmpty;
    hide Line;
    hide ValidNonce;
    hide Nonce;
    hide FirstFailure;
    FieldsMean(recipient);
    FieldsMean(transfer);
    FieldsMean(decision);
    FieldsMean(nonce);
    DecisionRequestPrinted(recipient, transfer, decision, eta, nonce, ts);
    Unrolled(Checks(DecisionRequest(recipient, transfer, decision, eta, nonce, ts)));
  }

  lemma DecisionResponseHeader()
    ensures Header(V2, KResponse) == "aex-decision-response:v2"
  {
  }

  lemma DecisionResponseLines(
    recipient: string, transfer: string, decision: string, outcome: string, reason: string, nonce: string, ts: I64)
    ensures Lines(V2, DecisionResponse(recipient, transfer, decision, outcome, reason, nonce, ts)) ==
            ["aex-decision-response:v2",
             "recipient=" + recipient, "transfer=" + transfer, "decision=" + decision, "outcome=" + outcome, "reason=" + reason, "nonce=" + nonce, "ts=" + PrintInt(ts)]
  {
    hide PrintInt;
    hide Header;
    DecisionResponseHeader();
    var m := DecisionResponse(recipient, transfer, decision, outcome, reason, nonce, ts);
    var keys, vs, lines := Keys(KResponse), Values(m), Lines(V2, m);
    assert keys[0] == "recipient=" && vs[0] == recipient;
    assert keys[1] == "transfer=" && vs[1] == transfer;
    assert keys[2] == "decision=" && vs[2] == decision;
    assert keys[3] == "outcome=" && vs[3] == outcome;
    assert keys[4] == "reason=" && vs[4] == reason;
    assert keys[5] == "nonce=" && vs[5] == nonce;
    assert keys[6] == "ts=" && vs[6] == PrintInt(ts);
    hide Keys;
    hide Values;
    assert |lines| == 8;
  }

  lemma DecisionResponsePrinted(
    recipient: string, transfer: string, decision: string, outcome: string, reason: string, nonce: string, ts: I64)
    ensures Join('\n', Lines(V2, DecisionResponse(recipient, transfer, decision, outcome, reason, nonce, ts))) ==
            "aex-decision-response:v2"
               + "\nrecipient=" + recipient
               + "\ntransfer=" + transfer
               + "\ndecision=" + decision
               + "\noutcome=" + outcome
               + "\nreason=" + reason
               + "\nnonce=" + nonce
               + "\nts=" + PrintInt(ts)
  {
    DecisionResponseLines(recipient, transfer, decision, outcome, reason, nonce, ts);
    hide Lines;
    hide PrintInt;
    hide Join;
    Join7("aex-decision-response:v2",
          Part("recipient=", "\nrecipient=", recipient),
          Part("transfer=", "\ntransfer=", transfer),
          Part("decision=", "\ndecision=", decision),
          Part("outcome=", "\noutcome=", outcome),
          Part("reason=", "\nreason=", reason),
          Part("nonce=", "\nnonce=", nonce),
          Part("ts=", "\nts=", PrintInt(ts)));
  }

  /** The decision-response encoder of version 2. */
  lemma DecisionResponseEncodes(
    recipient: string, transfer: string, decision: string, outcome: string, reason: string, nonce: string, ts: I64)
    ensures Encode(V2, DecisionResponse(recipient, transfer, decision, outcome, reason, nonce, ts)) ==
            if !Line(recipient) then Err(BadField("recipient_agent_id"))
            else if !Line(transfer) then Err(BadField("transfer_id"))
            else if !Line(decision) then Err(BadField("decision_id"))
            else if !Line(outcome) then Err(BadField("outcome"))
            else if !LineOrEmpty(reason) then Err(BadField("reason"))
            else if !Nonce(nonce) then Err(BadNonce)
            else if !(outcome == "accepted" || outcome == "rejected") then Err(BadOutcome)
            else Ok("aex-decision-response:v2"
               + "\nrecipient=" + recipient
               + "\ntransfer=" + transfer
               + "\ndecision=" + decision
               + "\noutcome=" + outcome
               + "\nreason=" + reason
               + "\nnonce=" + nonce
               + "\nts=" + PrintInt(ts))
  {
    hide Lines;
    hide PrintInt;
    hide Join;
    hide OptionalLine;
    hide AsciiLine;
    hide LineOrEmpty;
    hide Line;
    hide ValidNonce;
    hide Nonce;
    hide FirstFailure;
    FieldsMean(recipient);
    FieldsMean(transfer);
    FieldsMean(decision);
    FieldsMean(outcome);
    FieldsMean(reason);
    FieldsMean(nonce);
    DecisionResponsePrinted(recipient, transfer, decision, outcome, reason, nonce, ts);
    Unrolled(Checks(DecisionResponse(recipient, transfer, decision, outcome, reason, nonce, ts)));
  }
}
