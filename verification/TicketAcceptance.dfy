/** Exactly which tickets are accepted, with which error the others are refused, and what is served for them. */
module TicketAcceptance {
  import opened Wrappers
  import opened Tickets
  import opened Scanner
  import opened DataPlane
  import Hex
  import Text
  import Wire
  import WireText

  /** The text the control plane signs for a ticket. */
  function TicketText(t: Ticket): string {
    "spize-data-ticket:v1" + "\ntransfer=" + t.transferId + "\nrecipient=" + t.recipient + "\ndata_plane=" + t.dataPlaneUrl
    + "\nexpires=" + Text.PrintInt(t.expires) + "\nnonce=" + t.nonce
  }

  /** Not past `expires + skew`; a sum outside 64 bits comes back at the other end of the range. */
  predicate StillValid(expires: int, skew: int, now: int) {
    var sum := expires + skew;
    if sum > 9223372036854775807 then now <= sum - 18446744073709551616
    else if sum < -9223372036854775808 then now <= sum + 18446744073709551616
    else now <= sum
  }

  lemma ExpiredIsNotValid(v: Verifier, expires: Wire.I64, now: Wire.I64)
    ensures ExpiredAt(v, expires, now) <==> !StillValid(expires, v.skew, now)
  {
  }

  /** The hex text of 64 bytes. */
  predicate IsSignature(hex: string) { Hex.Decode(hex).Some? && |Hex.Decode(hex).value| == 64 }

  /** The answer to a ticket, given whether its nonce was used before. */
  function AnswerTo(v: Verifier, t: Ticket, now: Wire.I64, used: bool): Result<VerifiedTicket, TicketError> {
    if t.dataPlaneUrl != v.url then Err(WrongAudience(t.dataPlaneUrl, v.url))
    else if !StillValid(t.expires, v.skew, now) then Err(Expired(t.expires, now))
    else if !IsSignature(t.signature) then Err(Encoding)
    else if !WireText.Line(t.transferId) then Err(Canon(Wire.BadField("transfer_id")))
    else if !WireText.Line(t.recipient) then Err(Canon(Wire.BadField("recipient_agent_id")))
    else if !WireText.Line(t.dataPlaneUrl) then Err(Canon(Wire.BadField("data_plane_url")))
    else if !WireText.Nonce(t.nonce) then Err(Canon(Wire.BadNonce))
    else if !v.verifies(TicketText(t), Hex.Decode(t.signature).value) then Err(BadSignature)
    else if used then Err(NonceReplay)
    else Ok(VerifiedTicket(t.transferId, t.recipient, t.expires, t.nonce))
  }

  lemma CheckExactly(v: Verifier, t: Ticket, now: Wire.I64)
    ensures Check(v, t, now) == AnswerTo(v, t, now, false)
  {
    WireText.DataTicketEncodes(Wire.V1, t.transferId, t.recipient, t.dataPlaneUrl, t.expires, t.nonce);
    ExpiredIsNotValid(v, t.expires, now);
    hide Hex.Decode;
    hide Wire.Encode;
    hide WireText.Line;
    hide WireText.Nonce;
    hide Text.PrintInt;
    hide ExpiredAt;
    hide StillValid;
  }

  /** The ticket passes every check at that time. */
  predicate Acceptable(v: Verifier, t: Ticket, now: Wire.I64) {
    && t.dataPlaneUrl == v.url
    && StillValid(t.expires, v.skew, now)
    && WireText.Line(t.transferId) && WireText.Line(t.recipient) && WireText.Line(t.dataPlaneUrl) && WireText.Nonce(t.nonce)
    && IsSignature(t.signature) && v.verifies(TicketText(t), Hex.Decode(t.signature).value)
  }

  lemma AcceptableIsOk(v: Verifier, t: Ticket, now: Wire.I64)
    ensures Acceptable(v, t, now) <==> AnswerTo(v, t, now, false).Ok?
  {
    hide StillValid;
    hide IsSignature;
    hide WireText.Line;
    hide WireText.Nonce;
    hide TicketText;
  }

  /** An earlier call with this nonce succeeded. */
  ghost predicate SucceededBefore(v: Verifier, calls: seq<Call>, i: nat, nonce: string)
    requires i <= |calls|
  {
    exists j: nat | j < i :: Answer(v, calls, j).Ok? && calls[j].ticket.nonce == nonce
  }

  /** Every answer, success or error, from the ticket, the clock and the earlier successes alone. */
  lemma EveryAnswerExactly(v: Verifier, calls: seq<Call>, i: nat)
    requires i < |calls|
    ensures var t := calls[i].ticket;
            Answer(v, calls, i) == AnswerTo(v, t, calls[i].now, SucceededBefore(v, calls, i, t.nonce))
  {
    var t := calls[i].ticket;
    UsedAreAccepted(v, calls, i, t.nonce);
    CheckExactly(v, t, calls[i].now);
    hide Check;
    hide UsedAfter;
    hide StillValid;
    hide IsSignature;
    hide WireText.Line;
    hide WireText.Nonce;
    hide TicketText;
    hide Answer;
    assert SucceededBefore(v, calls, i, t.nonce) <==> AcceptedBefore(v, calls, i, t.nonce);
    assert Answer(v, calls, i) == Verify(v, UsedAfter(v, calls[..i]), t, calls[i].now).0 by { AnswerIs(v, calls, i); }
  }

  lemma AnswerIs(v: Verifier, calls: seq<Call>, i: nat)
    requires i < |calls|
    ensures Answer(v, calls, i) == Verify(v, UsedAfter(v, calls[..i]), calls[i].ticket, calls[i].now).0
  {
    hide UsedAfter;
    hide Verify;
  }

  /** A call succeeds iff its ticket is acceptable and no earlier successful call carried its nonce. */
  lemma CallSucceedsExactly(v: Verifier, calls: seq<Call>, i: nat)
    requires i < |calls|
    ensures var t := calls[i].ticket;
            && (Answer(v, calls, i).Ok? <==>
                  Acceptable(v, t, calls[i].now)
                  && !exists j: nat | j < i :: Answer(v, calls, j).Ok? && calls[j].ticket.nonce == t.nonce)
            && (Answer(v, calls, i).Ok? ==>
                  Answer(v, calls, i).value == VerifiedTicket(t.transferId, t.recipient, t.expires, t.nonce))
  {
    EveryAnswerExactly(v, calls, i);
    AcceptableIsOk(v, calls[i].ticket, calls[i].now);
    hide Answer;
    hide StillValid;
    hide IsSignature;
    hide WireText.Line;
    hide WireText.Nonce;
    hide TicketText;
    hide Acceptable;
  }

  /** When the sum fits, validity is plain arithmetic. */
  lemma StillValidWhenFits(expires: int, skew: int, now: int)
    requires -0x8000_0000_0000_0000 <= expires + skew < 0x8000_0000_0000_0000
    ensures StillValid(expires, skew, now) <==> now <= expires + skew
  {
  }

  /** A genuine ticket, presented in time and first, to the data plane it names, is accepted. */
  lemma GenuineTicketIsAccepted(v: Verifier, calls: seq<Call>, i: nat)
    requires i < |calls|
    requires var t := calls[i].ticket;
             && t.dataPlaneUrl == v.url
             && -0x8000_0000_0000_0000 <= t.expires + v.skew < 0x8000_0000_0000_0000 && calls[i].now <= t.expires + v.skew
             && Wire.Encode(Wire.V1, MessageOf(t)).Ok?
             && IsSignature(t.signature) && v.verifies(Wire.Encode(Wire.V1, MessageOf(t)).value, Hex.Decode(t.signature).value)
             && forall j: nat | j < i :: calls[j].ticket.nonce != t.nonce
    ensures Answer(v, calls, i).Ok?
  {
    var t := calls[i].ticket;
    hide Wire.Encode;
    hide WireText.Line;
    hide WireText.Nonce;
    hide Answer;
    EncodableMeans(t);
    hide TicketText;
    hide IsSignature;
    hide Hex.Decode;
    StillValidWhenFits(t.expires, v.skew, calls[i].now);
    hide StillValid;
    CallSucceedsExactly(v, calls, i);
  }

  lemma EncodableMeans(t: Ticket)
    requires Wire.Encode(Wire.V1, MessageOf(t)).Ok?
    ensures Wire.Encode(Wire.V1, MessageOf(t)).value == TicketText(t)
    ensures WireText.Line(t.transferId) && WireText.Line(t.recipient) && WireText.Line(t.dataPlaneUrl) && WireText.Nonce(t.nonce)
  {
    WireText.DataTicketEncodes(Wire.V1, t.transferId, t.recipient, t.dataPlaneUrl, t.expires, t.nonce);
    hide Wire.Encode;
    hide WireText.Line;
    hide WireText.Nonce;
    hide Text.PrintInt;
  }

  // ---------- what is served ----------

  /** Within the size limit and without the EICAR bytes, if a scanner is configured. */
  ghost predicate Passes(c: Config, bytes: seq<Hex.Byte>) {
    c.scanner.Some? ==> |bytes| <= c.scanner.value.maxBytes && !exists a, b :: bytes == a + EICAR_SIGNATURE + b
  }

  lemma PassesExactly(c: Config, blob: Blob)
    ensures Passes(c, blob.bytes) <==> !Blocks(c, blob)
  {
    hide Scan;
    if c.scanner.Some? {
      PipelineBlocksExactly(c.scanner.value, ScanInput(blob.bytes, Some(blob.metadata.filename), Some(blob.metadata.mime)));
    }
  }

  /** A request is admitted iff it brings an acceptable, unused ticket for the very transfer it names. */
  lemma AdmittedExactly(c: Config, used: set<string>, id: string, ticket: Option<Ticket>, now: Wire.I64)
    ensures var r := Admit(c, used, id, ticket, now);
            && (r.0.Ok? <==> && ticket.Some? && Acceptable(c.verifier, ticket.value, now)
                             && ticket.value.nonce !in used && ticket.value.transferId == id)
            && (r.0 == Err(NoTicket) <==> ticket.None?)
            && r.1 == if ticket.Some? && Acceptable(c.verifier, ticket.value, now) then used + {ticket.value.nonce} else used
  {
    if ticket.Some? {
      CheckExactly(c.verifier, ticket.value, now);
      AcceptableIsOk(c.verifier, ticket.value, now);
      AnswerNames(c.verifier, ticket.value, now);
    }
    hide Check;
    hide AnswerTo;
    hide Acceptable;
  }

  lemma AnswerNames(v: Verifier, t: Ticket, now: Wire.I64)
    ensures AnswerTo(v, t, now, false).Ok? ==> AnswerTo(v, t, now, false).value.transferId == t.transferId
  {
    hide StillValid;
    hide IsSignature;
    hide WireText.Line;
    hide WireText.Nonce;
    hide TicketText;
  }

  /**
   With an honest cache a payload is served iff the request brings an acceptable, unused
   ticket for that transfer, the blob is stored, and it passes the scan.
   */
  lemma ServedExactly(c: Config, used: set<string>, blobs: map<string, Blob>, id: string, ticket: Option<Ticket>, now: Wire.I64)
    ensures forall blob :: Rescanned(c, used, blobs, id, ticket, now) == Ok(blob) <==>
              && ticket.Some? && Acceptable(c.verifier, ticket.value, now)
              && ticket.value.nonce !in used && ticket.value.transferId == id
              && id in blobs && blobs[id] == blob && Passes(c, blob.bytes)
  {
    AdmittedExactly(c, used, id, ticket, now);
    if id in blobs { PassesExactly(c, blobs[id]); }
    hide Admit;
    hide Acceptable;
    hide Blocks;
    hide Passes;
    hide VerdictOf;
  }
}
