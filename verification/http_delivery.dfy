/** Messages that arrive over a connection, cut up in any way. */
module HttpDelivery {
  import opened HttpLog
  import opened HttpStep
  import opened HttpRun
  import opened HttpParser
  import opened HttpFeed
  import opened HttpMessage

  /** Legal messages that arrive in any pieces are reported exactly, one after the other, and the parser then waits for
      another one exactly if the connection is kept, unless the header limit is exceeded; whether it is, depends on the
      cuts as `Overflows` says. */
  method Deliver(parser: Parser, pieces: seq<seq<byte>>, ghost xs: seq<Message>, ghost reply: bool)
    returns (consumed: nat)
    requires parser.Valid() && parser.Counting() && Waits(parser.f, reply) && Proceeds(parser.cb)
    requires forall i :: 0 <= i < |pieces| ==> pieces[i] != []
    requires LegalMessages(xs, reply) && Stays(xs, reply) && Concat(pieces) == MessageTexts(xs, reply)
    modifies parser
    ensures parser.Valid() && parser.Counting()
    ensures parser.f.errno == HEADER_OVERFLOW <==> Overflows(old(parser.Start()), pieces, parser.m)
    ensures parser.f.errno != HEADER_OVERFLOW ==>
      && AllOver(parser.f, Go, xs, reply) && consumed == |Concat(pieces)|
      && Joined(parser.trace) == old(Joined(parser.trace)) + AllMessageEvents(xs, reply)
  {
    hide Run, LegalMessages, MessageTexts, AllMessageEvents, AllOver, Overflows, Concat, Stays;
    ghost var s := parser.Start();
    MessagesAreReported(s, xs, reply, parser.m, parser.cb);
    StaysThere(Run(s, Concat(pieces), parser.m), xs, reply);
    NotJumped(s, Concat(pieces), parser.m);
    ghost var lost;
    consumed, lost := Feed(parser, pieces);
    OverIsOk(parser.f, xs, reply);
  }

  /** The end of the connection behind them is no error, and it completes the last message if only it can. */
  method DeliverToTheEnd(parser: Parser, pieces: seq<seq<byte>>, ghost xs: seq<Message>, ghost reply: bool)
    returns (consumed: nat)
    requires parser.Valid() && parser.Counting() && Waits(parser.f, reply) && Proceeds(parser.cb)
    requires forall i :: 0 <= i < |pieces| ==> pieces[i] != []
    requires LegalMessages(xs, reply) && Stays(xs, reply) && Concat(pieces) == MessageTexts(xs, reply)
    modifies parser
    ensures parser.f.errno == HEADER_OVERFLOW <==> Overflows(old(parser.Start()), pieces, parser.m)
    ensures parser.f.errno != HEADER_OVERFLOW ==>
      && AllOver(parser.f, Go, xs, reply) && consumed == |Concat(pieces)|
      && Joined(parser.trace) == old(Joined(parser.trace)) + (AllMessageEvents(xs, reply)
        + if xs != [] && xs[|xs| - 1].content.ToTheEnd? then [Notice(MessageComplete)] else [])
  {
    hide LegalMessages, MessageTexts, AllMessageEvents, AllOver, Overflows, Concat, Stays, Joined, Waits, Run,
      SkipsBadByte, OverLimit;
    consumed := Deliver(parser, pieces, xs, reply);
    if parser.f.errno == OK {
      ghost var before := parser.trace;
      EndIsOk(parser.f, xs, reply);
      var n, lost := parser.Execute([]);
      NoticeJoins(before, MessageComplete);
      BehindAll(old(Joined(parser.trace)), AllMessageEvents(xs, reply));
    } else {
      OverIsOk(parser.f, xs, reply);
    }
  }

  /** The parser does not end amid a message, but for a body that needs the end. */
  lemma EndIsOk(q: Fields, xs: seq<Message>, reply: bool)
    requires LegalMessages(xs, reply) && AllOver(q, Go, xs, reply)
    ensures
      if xs != [] && xs[|xs| - 1].content.ToTheEnd? then q.state.s_body_identity_eof?
      else q.state.s_dead? || q.state.s_start_req? || q.state.s_start_res?
  {
    hide LegalMessages, LegalMessage, HowAfter, OutlookAfter;
  }

  lemma NoticeJoins(trace: seq<Event>, n: Note)
    ensures Joined(trace + [Notice(n)]) == Joined(trace) + [Notice(n)]
  {
    AddAllConcat([], trace, [Notice(n)]);
    AddAllOne(Joined(trace), Notice(n));
  }

  lemma BehindAll(log: seq<Event>, es: seq<Event>)
    ensures log + es + [Notice(MessageComplete)] == log + (es + [Notice(MessageComplete)])
    ensures log + es == log + (es + [])
  {
    assert es + [] == es;
  }

  /** The last message does not leave the connection to another protocol. */
  predicate Stays(xs: seq<Message>, reply: bool)
    requires LegalMessages(xs, reply)
  {
    xs == [] || (LastIsLegal(xs, reply); HowAfter(xs[|xs| - 1]) == Go)
  }

  lemma StaysThere(t: Progress, xs: seq<Message>, reply: bool)
    requires LegalMessages(xs, reply) && Stays(xs, reply) && AllOver(t.q, t.how, xs, reply)
    ensures t.how == Go && t.q.errno == OK
  {
    hide LegalMessages, LegalMessage, HowAfter, OutlookAfter;
  }

  lemma OverIsOk(q: Fields, xs: seq<Message>, reply: bool)
    requires LegalMessages(xs, reply)
    ensures AllOver(q, Go, xs, reply) ==> q.errno == OK
  {
    hide LegalMessages, LegalMessage, HowAfter, OutlookAfter;
  }

  lemma NotJumped(s: Progress, data: seq<byte>, m: Machine)
    requires Steps(m) && s.how == Go && s.n == 0 && Run(s, data, m).how == Go
    ensures !SkipsBadByte(s, data, m) && Run(s, data, m).n == |data|
  {
    RunConsumes(s, data, |data|, m);
  }
}
