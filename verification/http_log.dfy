/** The callback trace of the HTTP parser, and what it means to join adjacent data callbacks. */
module HttpLog {
  type byte = b: int | 0 <= b < 256

  /** The five data callbacks of `http_parser_settings`. */
  datatype Kind = Url | StatusText | HeaderField | HeaderValue | Body

  /** The notification callbacks. Each carries what its callback can read from the parser
      and what the framing of a message depends on. */
  datatype Note =
    | MessageBegin
    | HeadersComplete(framing: Framing)
    | ChunkHeader(size: nat)
    | ChunkComplete
    | MessageComplete

  /** How the length of a message body is determined once its headers are complete. */
  datatype Framing = NoBody | Length(n: nat) | Chunked | UntilEof

  datatype Event = Data(kind: Kind, bytes: seq<byte>) | Notice(note: Note)

  /** Appends one callback, joining it to the previous one when both deliver the same kind of data. */
  function Add(log: seq<Event>, e: Event): seq<Event> {
    if |log| > 0 && e.Data? && log[|log| - 1].Data? && log[|log| - 1].kind == e.kind then
      log[..|log| - 1] + [Data(e.kind, log[|log| - 1].bytes + e.bytes)]
    else
      log + [e]
  }

  function AddAll(log: seq<Event>, es: seq<Event>): seq<Event> {
    if es == [] then log else Add(AddAll(log, es[..|es| - 1]), es[|es| - 1])
  }

  /** The trace with every run of adjacent data callbacks of one kind joined into one. */
  function Joined(log: seq<Event>): seq<Event> {
    AddAll([], log)
  }

  lemma AddAllOne(log: seq<Event>, e: Event)
    ensures AddAll(log, [e]) == Add(log, e)
  {
    assert [e][..0] == [];
  }

  lemma {:induction false} AddAllConcat(log: seq<Event>, a: seq<Event>, b: seq<Event>)
    ensures AddAll(log, a + b) == AddAll(AddAll(log, a), b)
  {
    if b == [] {
      assert a + b == a;
    } else {
      AddAllConcat(log, a, b[..|b| - 1]);
      assert (a + b)[..|a + b| - 1] == a + b[..|b| - 1];
    }
  }

  /** Two adjacent pieces of one kind are as good as their concatenation. */
  lemma AddTwice(log: seq<Event>, k: Kind, u: seq<byte>, v: seq<byte>)
    ensures Add(Add(log, Data(k, u)), Data(k, v)) == Add(log, Data(k, u + v))
  {
    if |log| > 0 && log[|log| - 1].Data? && log[|log| - 1].kind == k {
      var last := log[|log| - 1];
      assert last.bytes + u + v == last.bytes + (u + v);
    }
  }

  /** Joining is idempotent and can be done piecewise. */
  lemma JoinedConcat(a: seq<Event>, b: seq<Event>)
    ensures Joined(a + b) == AddAll(Joined(a), b)
  {
    AddAllConcat([], a, b);
  }
}
