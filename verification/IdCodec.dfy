/** The request id of a client, tagged with the client on the way to the child and recovered
    on the way back (`prefix_id` and `strip_prefixed_id` of rust/src/gateways/stdio_to_ws.rs
    and rust/src/gateways/stdio_to_grpc.rs). */
module IdCodec {
  import opened Json
  import opened Decimal

  type ClientId = string

  /** Client ids are UUIDs: they contain no colon. */
  predicate NoColon(c: ClientId) {
    ':' !in c
  }

  /** The text an id is tagged as. `render` is the JSON text of a value that is neither a
      string nor a number. */
  function RawText(render: Value -> string, id: Value): string {
    match id
    case Str(s) => s
    case Int(i) => Print(i)
    case Float(text) => text
    case _ => render(id)
  }

  function PrefixId(render: Value -> string, client: ClientId, id: Value): Value {
    Str(client + ":" + RawText(render, id))
  }

  /** Splits at the first colon. */
  function SplitColon(s: string): (r: Option<(string, string)>)
    ensures r.Some? <==> ':' in s
    ensures r.Some? ==> r.value.0 + ":" + r.value.1 == s && ':' !in r.value.0
  {
    if s == [] then None
    else if s[0] == ':' then Some(("", s[1..]))
    else match SplitColon(s[1..])
      case Some((client, raw)) => Some(([s[0]] + client, raw))
      case None => None
  }

  function DecodeRaw(raw: string): Value {
    match ParseI64(raw)
    case Some(n) => Int(n)
    case None => Str(raw)
  }

  function StripId(id: string): Option<(ClientId, Value)> {
    match SplitColon(id)
    case Some((client, raw)) => Some((client, DecodeRaw(raw)))
    case None => None
  }

  function StripPrefixedId(message: Value): Option<(ClientId, Value)> {
    match StringId(message)
    case Some(id) => StripId(id)
    case None => None
  }

  /** A text has one split at its first colon. */
  lemma {:induction false} SplitIsUnique(client: string, raw: string)
    requires NoColon(client)
    ensures SplitColon(client + ":" + raw) == Some((client, raw))
  {
    var s := client + ":" + raw;
    var split := SplitColon(s);
    if client == [] {
      assert s[1..] == raw;
    } else {
      assert s[1..] == client[1..] + ":" + raw;
      SplitIsUnique(client[1..], raw);
      assert [s[0]] + client[1..] == client;
    }
  }

  /** The ids that survive the trip: 64-bit signed integers and strings that are not the
      decimal text of one. */
  predicate Survives(id: Value) {
    (id.Int? && I64_MIN <= id.i <= I64_MAX) || (id.Str? && ParseI64(id.s) == None)
  }

  /** An id is tagged as the client, a colon and the id's own text. */
  lemma TagIs(render: Value -> string, client: ClientId, s: string, i: int, text: string)
    ensures PrefixId(render, client, Str(s)) == Str(client + ":" + s)
    ensures PrefixId(render, client, Int(i)) == Str(client + ":" + Print(i))
    ensures PrefixId(render, client, Float(text)) == Str(client + ":" + text)
    ensures PrefixId(render, client, Null) == Str(client + ":" + render(Null))
  {
  }

  /** Stripping a tagged id gives back exactly the client and the id it was made from, if and
      only if the id is one of those that survive. */
  lemma RoundTripIff(render: Value -> string, client: ClientId, id: Value)
    requires NoColon(client)
    ensures StripId(PrefixId(render, client, id).s) == Some((client, DecodeRaw(RawText(render, id))))
    ensures StripId(PrefixId(render, client, id).s) == Some((client, id)) <==> Survives(id)
  {
    SplitIsUnique(client, RawText(render, id));
    if id.Int? {
      PrintParses(id.i);
    }
  }

  /** Ids of different clients are never tagged alike, and ids of one client only when their
      texts agree. */
  lemma PrefixInjective(render: Value -> string, c1: ClientId, id1: Value, c2: ClientId, id2: Value)
    requires NoColon(c1) && NoColon(c2)
    requires PrefixId(render, c1, id1) == PrefixId(render, c2, id2)
    ensures c1 == c2 && RawText(render, id1) == RawText(render, id2)
    ensures Survives(id1) && Survives(id2) ==> id1 == id2
  {
    SplitIsUnique(c1, RawText(render, id1));
    SplitIsUnique(c2, RawText(render, id2));
    RoundTripIff(render, c1, id1);
    RoundTripIff(render, c2, id2);
  }

  /** A client without the promise loses the trip: a colon inside it moves the split. */
  lemma ColonInClientBreaksRoundTrip(render: Value -> string, client: ClientId, id: Value)
    requires !NoColon(client)
    ensures StripId(PrefixId(render, client, id).s) != Some((client, id))
  {
    var s := PrefixId(render, client, id).s;
    assert s[|client|] == ':';
    assert SplitColon(s).Some?;
  }

  /** The string "007" comes back as the number 7. */
  lemma LeadingZeroesAreLost(render: Value -> string, client: ClientId)
    requires NoColon(client)
    ensures StripId(PrefixId(render, client, Str("007")).s) == Some((client, Int(7)))
  {
    SplitIsUnique(client, "007");
    assert "007"[..2] == "00" && "00"[..1] == "0" && "0"[..0] == "";
    assert DigitsValue("0") == 0;
    assert DigitsValue("00") == 0;
    assert DigitsValue("007") == 7;
  }
}
