/** Framing over a byte stream: what the receiver makes of a WRITE request however the network cuts it up. */
module WireStream {
  import opened Entries
  import opened WireFormat

  function Min(a: nat, b: nat): nat {
    if a < b then a else b
  }

  /** Where a character first stands, or the length. */
  function IndexOf(s: string, c: char, from: nat := 0): (k: nat)
    requires from <= |s|
    ensures from <= k <= |s| && (k < |s| ==> s[k] == c)
    ensures forall i :: from <= i < k ==> s[i] != c
    decreases |s| - from
  {
    if from == |s| || s[from] == c then from else IndexOf(s, c, from + 1)
  }

  /** What the string functions see of the receive buffer. */
  function Visible(buffer: string): string {
    buffer[..IndexOf(buffer, '\0')]
  }

  datatype Reply =
    | Closed
    | OtherCommand
    | InvalidHeader
    | InvalidSyntax
    | Write(request: Request, payload: string)

  /** How many of the bytes still to come are collected. `cuts` are the sizes the network offers to successive receives,
      0 for a connection that is closed; no receive takes more than is wanted or there. */
  function Collected(there: nat, wanted: nat, cuts: seq<nat>): (n: nat)
    ensures n <= there && n <= wanted
    decreases |cuts|
  {
    if wanted == 0 || cuts == [] then 0
    else
      var r := Min(cuts[0], Min(wanted, there));
      if r == 0 then 0 else r + Collected(there - r, wanted - r, cuts[1..])
  }

  /** The bytes of the first receive that already belong to the payload. */
  function Early(first: string, newline: nat, length: nat): string
    requires newline < |first|
  {
    first[newline + 1..][..Min(|first| - newline - 1, length)]
  }

  function Payload(first: string, newline: nat, length: nat, rest: string, cuts: seq<nat>): string
    requires newline < |first|
  {
    var early := Early(first, newline, length);
    early + rest[..Collected(|rest|, length - |early|, cuts)]
  }

  /** The header of the first receive: a refusal, or where it ends and what it asks for. */
  datatype Front = Refused(reply: Reply) | Accepted(newline: nat, request: Request)

  function Inspect(first: string): (f: Front)
    ensures f.Accepted? ==> f.newline < |first|
  {
    var text := Visible(first);
    var newline := IndexOf(text, '\n');
    if first == "" then Refused(Closed)
    else if !("WRITE|" <= text) then Refused(OtherCommand)
    else if newline == |text| then Refused(InvalidHeader)
    else
      var q := Scan(text);
      if q.None? then Refused(InvalidSyntax) else Accepted(newline, q.value)
  }

  /** The WRITE branch of the handler: `first` is what the first receive returned, `rest` what the stream
      still holds. */
  function Receive(first: string, rest: string, cuts: seq<nat>): Reply {
    match Inspect(first)
    case Refused(reply) => reply
    case Accepted(newline, q) => Write(q, Payload(first, newline, q.length, rest, cuts))
  }

  // ---------------------------------------------------------------- the loops

  /** Copies the payload that came with the header, then receives until it is complete or the connection closes. */
  method Reassemble(first: string, newline: nat, length: nat, rest: string, cuts: seq<nat>) returns (payload: string)
    requires newline < |first|
    ensures payload == Payload(first, newline, length, rest, cuts)
  {
    var data := new char[length];
    var inBuffer := |first| - newline - 1;
    var total: nat := 0;
    if inBuffer > 0 {
      total := if inBuffer < length then inBuffer else length;
      CopyInto(data, 0, first[newline + 1..newline + 1 + total]);
    }
    assert data[..total] == Early(first, newline, length);
    total := ReceiveRest(data, total, rest, cuts);
    payload := data[..total];
  }

  /** Receives into the payload buffer from position `start` on. */
  method ReceiveRest(data: array<char>, start: nat, rest: string, cuts: seq<nat>) returns (total: nat)
    requires start <= data.Length
    modifies data
    ensures total == start + Collected(|rest|, data.Length - start, cuts)
    ensures data[..total] == old(data[..start]) + rest[..total - start]
  {
    ghost var front := data[..start];
    total := start;
    var taken: nat, i: nat := 0, 0;
    while total < data.Length && i < |cuts|
      invariant i <= |cuts| && total == start + taken <= data.Length && taken <= |rest|
      invariant data[..total] == front + rest[..taken]
      invariant Collected(|rest|, data.Length - start, cuts) ==
                taken + Collected(|rest| - taken, data.Length - total, cuts[i..])
    {
      var r := Min(cuts[i], Min(data.Length - total, |rest| - taken));
      assert cuts[i..][1..] == cuts[i + 1..];
      if r == 0 {
        break;
      }
      CopyInto(data, total, rest[taken..taken + r]);
      Glue(front, rest, taken, taken + r);
      total, taken, i := total + r, taken + r, i + 1;
    }
  }

  lemma {:induction false} Glue(front: string, rest: string, i: nat, j: nat)
    requires i <= j <= |rest|
    ensures front + rest[..i] + rest[i..j] == front + rest[..j]
  {
    assert rest[..i] + rest[i..j] == rest[..j];
  }

  method CopyInto(data: array<char>, at: nat, bytes: string)
    requires at + |bytes| <= data.Length
    modifies data
    ensures data[..at + |bytes|] == old(data[..at]) + bytes
  {
    var k := 0;
    while k < |bytes|
      invariant k <= |bytes| && data[..at + k] == old(data[..at]) + bytes[..k]
    {
      data[at + k] := bytes[k];
      k := k + 1;
    }
  }

  /** The handler up to the call of the storage service. */
  method HandleClient(first: string, rest: string, cuts: seq<nat>) returns (reply: Reply)
    ensures reply == Receive(first, rest, cuts)
  {
    if first == "" {
      return Closed;
    }
    var text := Visible(first);
    if !("WRITE|" <= text) {
      return OtherCommand;
    }
    var newline := IndexOf(text, '\n');
    if newline == |text| {
      return InvalidHeader;
    }
    var q := Scan(text);
    if q.None? {
      return InvalidSyntax;
    }
    var payload := Reassemble(first, newline, q.value.length, rest, cuts);
    return Write(q.value, payload);
  }

  /** The sender: the header in one send, whose count nothing looks at, then the data in as many pieces as the socket
      accepts; a send that fails ends it. `header` is how much of the header the socket takes, or that the send
      fails. */
  method SendWrite(id: string, offset: nat, data: string, header: Option<nat>, sends: seq<nat>)
      returns (wire: string, ok: bool)
    ensures header.None? ==> wire == "" && !ok
    ensures header.Some? ==>
              var front := Header(id, offset, |data|)[..Min(header.value, |Header(id, offset, |data|)|)];
              front <= wire <= front + data && (ok <==> wire == front + data)
  {
    var text := Header(id, offset, |data|);
    if header.None? {
      return "", false;
    }
    ghost var front := text[..Min(header.value, |text|)];
    wire := text[..Min(header.value, |text|)];
    var sent: nat, i: nat := 0, 0;
    while sent < |data|
      invariant sent <= |data| && i <= |sends| && wire == front + data[..sent]
      decreases |sends| - i
    {
      if i == |sends| {
        assert |wire| < |front + data|;
        return wire, false;
      }
      var r := Min(sends[i], |data| - sent);
      assert data[..sent] + data[sent..sent + r] == data[..sent + r];
      wire := wire + data[sent..sent + r];
      sent, i := sent + r, i + 1;
    }
    assert data[..sent] == data;
    return wire, true;
  }

  // ---------------------------------------------------------------- the round trip

  /** What the network delivers before it closes. */
  function Delivered(cuts: seq<nat>): nat {
    if cuts == [] || cuts[0] == 0 then 0 else cuts[0] + Delivered(cuts[1..])
  }

  lemma {:induction false} CollectedIs(there: nat, wanted: nat, cuts: seq<nat>)
    ensures Collected(there, wanted, cuts) == Min(Min(there, wanted), Delivered(cuts))
    decreases |cuts|
  {
    if wanted > 0 && cuts != [] {
      var r := Min(cuts[0], Min(wanted, there));
      if r > 0 {
        CollectedIs(there - r, wanted - r, cuts[1..]);
      }
    }
  }

  predicate GoodId(id: string) {
    1 <= |id| <= ID_CHARS && '|' !in id && '\n' !in id && '\0' !in id
  }

  lemma {:induction false} HeaderChars(id: string, offset: nat, length: nat)
    requires GoodId(id)
    ensures var h := Header(id, offset, length);
            && |h| >= 7 && h[|h| - 1] == '\n'
            && forall i :: 0 <= i < |h| - 1 ==> h[i] != '\n' && h[i] != '\0'
  {
    var h := "WRITE|" + id + "|" + Decimal(offset) + "|" + Decimal(length);
    assert Header(id, offset, length) == h + "\n";
    assert forall i :: 0 <= i < |Decimal(offset)| ==> IsDigit(Decimal(offset)[i]);
    assert forall i :: 0 <= i < |Decimal(length)| ==> IsDigit(Decimal(length)[i]);
  }

  lemma {:induction false} IndexIs(s: string, c: char, k: nat)
    requires k < |s| && s[k] == c && forall i :: 0 <= i < k ==> s[i] != c
    ensures IndexOf(s, c) == k
  {
  }

  lemma {:induction false} HeaderVisible(id: string, offset: nat, length: nat, tail: string)
    requires GoodId(id)
    ensures var h := Header(id, offset, length); var text := Visible(h + tail);
            h <= text && IndexOf(text, '\n') == |h| - 1
  {
    var h := Header(id, offset, length);
    HeaderChars(id, offset, length);
    var first := h + tail;
    assert forall i :: 0 <= i < |h| ==> first[i] == h[i];
    assert IndexOf(first, '\0') >= |h|;
    var text := Visible(first);
    assert forall i :: 0 <= i < |h| ==> text[i] == h[i];
    IndexIs(text, '\n', |h| - 1);
  }

  lemma {:induction false} InspectIs(first: string, newline: nat, q: Request)
    requires var text := Visible(first);
             "WRITE|" <= text && IndexOf(text, '\n') == newline < |text| && Scan(text) == Some(q)
    ensures Inspect(first) == Accepted(newline, q)
  {
  }

  lemma {:induction false} HeaderScans(id: string, offset: nat, length: nat, text: string)
    requires GoodId(id) && offset < U64 && length < U64 && Header(id, offset, length) <= text
    ensures "WRITE|" <= text && Scan(text) == Some(Request(id, offset, length))
  {
    var h := Header(id, offset, length);
    assert text == h + text[|h|..];
    ScanUndoesPrintIff(id, offset, length, text[|h|..]);
  }

  lemma {:induction false} HeaderAccepted(id: string, offset: nat, length: nat, tail: string)
    requires GoodId(id) && offset < U64 && length < U64
    ensures var h := Header(id, offset, length);
            |h| > 0 && Inspect(h + tail) == Accepted(|h| - 1, Request(id, offset, length))
  {
    var h := Header(id, offset, length);
    HeaderVisible(id, offset, length, tail);
    HeaderScans(id, offset, length, Visible(h + tail));
    InspectIs(h + tail, |h| - 1, Request(id, offset, length));
  }

  /** The payload of a stream cut anywhere after its header. */
  lemma {:induction false} PayloadIs(h: string, data: string, k: nat, cuts: seq<nat>)
    requires |h| > 0 && k <= |data|
    ensures Payload(h + data[..k], |h| - 1, |data|, data[k..], cuts) == data[..Min(|data|, k + Delivered(cuts))]
  {
    var first, rest := h + data[..k], data[k..];
    assert first[|h|..] == data[..k];
    assert Early(first, |h| - 1, |data|) == data[..k];
    CollectedIs(|rest|, |data| - k, cuts);
    var c := Collected(|rest|, |data| - k, cuts);
    assert data[..k] + rest[..c] == data[..k + c];
  }

  lemma {:induction false} AcceptedPayload(h: string, q: Request, data: string, k: nat, cuts: seq<nat>)
    requires |h| > 0 && k <= |data| && q.length == |data|
    requires Inspect(h + data[..k]) == Accepted(|h| - 1, q)
    ensures Receive(h + data[..k], data[k..], cuts) == Write(q, data[..Min(|data|, k + Delivered(cuts))])
  {
    PayloadIs(h, data, k, cuts);
  }

  /** For every id, offset and data, every first receive that holds the whole header and k bytes of data, and every
      way of cutting up what follows: the request arrives as sent, and of the data exactly what was delivered. */
  lemma {:induction false} FramingRoundTrip(id: string, offset: nat, data: string, k: nat, cuts: seq<nat>)
    requires GoodId(id) && offset < U64 && |data| < U64 && k <= |data|
    ensures Receive(Header(id, offset, |data|) + data[..k], data[k..], cuts)
            == Write(Request(id, offset, |data|), data[..Min(|data|, k + Delivered(cuts))])
  {
    HeaderAccepted(id, offset, |data|, data[..k]);
    AcceptedPayload(Header(id, offset, |data|), Request(id, offset, |data|), data, k, cuts);
  }

  lemma {:induction false} PrefixIsWholeIff(prefix: string, data: string, n: nat)
    requires prefix == data[..Min(|data|, n)]
    ensures prefix == data <==> n >= |data|
  {
    assert |prefix| == Min(|data|, n);
  }

  lemma {:induction false} ReplyIsWholeIff(
      first: string, rest: string, cuts: seq<nat>, q: Request, newline: nat, data: string)
    requires Inspect(first) == Accepted(newline, q)
    ensures Receive(first, rest, cuts) == Write(q, data) <==> Payload(first, newline, q.length, rest, cuts) == data
  {
  }

  lemma {:induction false} PayloadWholeIff(h: string, data: string, k: nat, cuts: seq<nat>)
    requires |h| > 0 && k <= |data|
    ensures Payload(h + data[..k], |h| - 1, |data|, data[k..], cuts) == data <==> k + Delivered(cuts) >= |data|
  {
    PayloadIs(h, data, k, cuts);
    PrefixIsWholeIff(Payload(h + data[..k], |h| - 1, |data|, data[k..], cuts), data, k + Delivered(cuts));
  }

  lemma {:induction false} AcceptedWholeIff(h: string, q: Request, data: string, k: nat, cuts: seq<nat>)
    requires |h| > 0 && k <= |data| && q.length == |data|
    requires Inspect(h + data[..k]) == Accepted(|h| - 1, q)
    ensures Receive(h + data[..k], data[k..], cuts) == Write(q, data) <==> k + Delivered(cuts) >= |data|
  {
    PayloadWholeIff(h, data, k, cuts);
    ReplyIsWholeIff(h + data[..k], data[k..], cuts, q, |h| - 1, data);
  }

  /** So the request arrives as it was sent exactly when the network delivers all of the data. */
  lemma {:induction false} WholeIffDelivered(id: string, offset: nat, data: string, k: nat, cuts: seq<nat>)
    requires GoodId(id) && offset < U64 && |data| < U64 && k <= |data|
    ensures Receive(Header(id, offset, |data|) + data[..k], data[k..], cuts) == Write(Request(id, offset, |data|), data)
            <==> k + Delivered(cuts) >= |data|
  {
    HeaderAccepted(id, offset, |data|, data[..k]);
    AcceptedWholeIff(Header(id, offset, |data|), Request(id, offset, |data|), data, k, cuts);
  }

  /** A first receive that stops short of the header's end is refused, whatever follows. */
  lemma {:induction false} SplitHeaderIsRefused(
      id: string, offset: nat, data: string, n: nat, rest: string, cuts: seq<nat>)
    requires GoodId(id) && n < |Header(id, offset, |data|)|
    ensures Receive(Header(id, offset, |data|)[..n], rest, cuts) ==
              if n == 0 then Closed else if n < 6 then OtherCommand else InvalidHeader
  {
    var first := Header(id, offset, |data|)[..n];
    HeaderChars(id, offset, |data|);
    assert IndexOf(first, '\0') == n;
    assert Visible(first) == first;
    assert IndexOf(first, '\n') == n;
    assert n >= 6 ==> first[..6] == "WRITE|";
  }
}
