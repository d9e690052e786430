/** The streaming writer: calls turned into text through a buffer that is flushed when it is nearly full. */
module JsonStream {
  import opened JsonText
  import opened JsonCalls
  import opened JsonRaw
  import opened Options
  import JsonGrammar
  import JsonRoundTrip

  const BUFFER_SIZE: nat := 1024
  const MAX_DEPTH: nat := 30

  datatype State = Start | End | InsideObject | ObjectKey | ObjectValue | InsideArray | ArrayItem | Error

  const NESTING_OBJECT: nat := 0
  const NESTING_ARRAY: nat := 1

  /** The state a document is in. */
  function StateOf(doc: Doc): State {
    match doc
    case Broken => Error
    case Done(_) => End
    case Building(frames) =>
      if |frames| == 0 then Start
      else
        match Top(frames)
        case InArray(items) => if |items| == 0 then InsideArray else ArrayItem
        case InObject(members, key) =>
          if key.Some? then ObjectKey else if |members| == 0 then InsideObject else ObjectValue
  }

  function KindOf(f: Frame): nat {
    if f.InObject? then NESTING_OBJECT else NESTING_ARRAY
  }

  /** Which of the calls that put a value have something to write. */
  function TokenOf(call: Call): string {
    match call
    case PutNumber(token) => token
    case PutBoolean(b) => if b then "true" else "false"
    case PutNull => "null"
    case _ => ""
  }

  predicate Scalar(call: Call) {
    call.PutNumber? || call.PutBoolean? || call.PutNull?
  }

  class Stream {
    const buffer: array<char>
    const nesting: array<nat>
    var pos: nat
    var state: State
    var error: bool
    var nestingIdx: nat
    /** What the flush callback was given. */
    var sink: string
    /** The document the calls describe. */
    ghost var doc: Doc

    /** Everything written: what was flushed, then the buffer. */
    ghost function Output(): string
      requires buffer.Length == BUFFER_SIZE && pos <= BUFFER_SIZE
      reads this, buffer
    {
      sink + buffer[..pos]
    }

    ghost predicate Room()
      reads this
    {
      buffer.Length == BUFFER_SIZE && pos <= BUFFER_SIZE - 2
    }

    /** Between calls: room for one more character, the state that of the document, the nesting stack that of
        its frames, and the output its text. */
    ghost predicate Valid()
      reads this, buffer, nesting
    {
      && Room()
      && nesting.Length == MAX_DEPTH
      && Nested(doc)
      && state == StateOf(doc)
      && (doc.Building? ==> Stacked(doc.frames))
      && (doc != Broken ==> !error && Output() == Written(doc))
    }

    ghost predicate Stacked(frames: seq<Frame>)
      requires nesting.Length == MAX_DEPTH
      reads this, nesting
    {
      nestingIdx == |frames| <= MAX_DEPTH && forall i :: 0 <= i < |frames| ==> nesting[i] == KindOf(frames[i])
    }

    constructor ()
      ensures Valid() && doc == START && sink == "" && pos == 0
      ensures fresh(buffer) && fresh(nesting)
    {
      buffer := new char[BUFFER_SIZE];
      nesting := new nat[MAX_DEPTH];
      pos, state, error, nestingIdx, sink := 0, Start, false, 0, "";
      doc := START;
      new;
      assert Written(START) == "";
    }

    /** Hands the buffer to the callback, which takes it. */
    method Flush()
      requires buffer.Length == BUFFER_SIZE && pos <= BUFFER_SIZE
      modifies `pos, `sink
      ensures if error then pos == old(pos) && sink == old(sink) else pos == 0 && sink == old(Output())
    {
      if pos == 0 || error {
        return;
      }
      sink := sink + buffer[..pos];
      pos := 0;
    }

    method Put(c: char)
      requires Room() && !error
      modifies `pos, `sink, buffer
      ensures Room() && Output() == old(Output()) + [c]
    {
      buffer[pos] := c;
      pos := pos + 1;
      assert buffer[..pos] == old(buffer[..pos]) + [c];
      if pos >= BUFFER_SIZE - 1 {
        Flush();
      }
    }

    /** Copies as much as fits, again and again. */
    method Write(data: string)
      requires Room() && !error
      modifies `pos, `sink, buffer
      ensures Room() && Output() == old(Output()) + data
    {
      var done := 0;
      while done < |data|
        invariant 0 <= done <= |data| && Room() && Output() == old(Output()) + data[..done]
      {
        var chunkSize := |data| - done;
        if chunkSize > BUFFER_SIZE - pos {
          chunkSize := BUFFER_SIZE - pos;
        }
        Copy(data[done..done + chunkSize]);
        assert data[..done] + data[done..done + chunkSize] == data[..done + chunkSize];
        done := done + chunkSize;
      }
      assert data[..|data|] == data;
    }

    method Copy(chunk: string)
      requires Room() && !error && 0 < |chunk| <= BUFFER_SIZE - pos
      modifies `pos, `sink, buffer
      ensures Room() && Output() == old(Output()) + chunk
    {
      ghost var before := Output();
      for i := 0 to |chunk|
        invariant pos == old(pos) && sink == old(sink) && buffer[..pos] == old(buffer[..pos])
        invariant buffer[pos..pos + i] == chunk[..i]
      {
        buffer[pos + i] := chunk[i];
      }
      assert buffer[..pos + |chunk|] == buffer[..pos] + buffer[pos..pos + |chunk|];
      pos := pos + |chunk|;
      assert sink + (old(buffer[..pos]) + chunk) == before + chunk;
      if pos >= BUFFER_SIZE - 1 {
        Flush();
      }
    }

    /** Whether a value may come; if so, the comma before it is written. */
    method Begin() returns (accepting: bool)
      requires Valid() && doc != Broken
      modifies `pos, `sink, buffer
      ensures accepting == Accepting(doc) && (accepting ==> doc.Building?)
      ensures Room() && Output() == old(Output()) + if accepting then Lead(doc.frames) else ""
    {
      hide Lead, Written, Stacked, StateOf, Accepting, Nested;
      StateTells(doc);
      accepting := state in {Start, ObjectKey, InsideArray, ArrayItem};
      assert Output() + "" == Output();
      if state == ArrayItem {
        Put(',');
      }
    }

    /** Opens an object or an array. */
    method Open(brace: char, inside: State, kind: nat, ghost call: Call, ghost f: Frame)
      requires Valid() && doc != Broken && (Accepting(doc) ==> nestingIdx < MAX_DEPTH)
      requires
        || (call == Call.ObjectStart && f == InObject([], None) && brace == '{' && inside == InsideObject)
        || (call == Call.ArrayStart && f == InArray([]) && brace == '[' && inside == InsideArray)
      requires kind == KindOf(f)
      modifies this, buffer, nesting
      ensures Valid() && doc == Step(old(doc), call)
      ensures doc == Broken ==> Output() == old(Output())
    {
      hide Lead, Written, StateOf, Accepting, Nested, Step;
      var accepting := Begin();
      if accepting {
        OpenStep(doc, call, f, brace);
        Put(brace);
        state := inside;
        nesting[nestingIdx] := kind;
        nestingIdx := nestingIdx + 1;
        doc := Step(doc, call);
        assert Stacked(doc.frames);
      } else {
        NotAccepted(doc, call);
        state := Error;
        doc := Step(doc, call);
      }
    }

    method ObjectStart()
      requires Valid() && (Accepting(doc) ==> nestingIdx < MAX_DEPTH)
      modifies this, buffer, nesting
      ensures Valid() && doc == Step(old(doc), Call.ObjectStart)
      ensures doc == Broken ==> Output() == old(Output())
    {
      hide Written, Step, Accepting, Nested;
      if error {
        state := Error;
      }
      OnlyErrors(doc, Call.ObjectStart);
      if state == Error {
        return;
      }
      Open('{', InsideObject, NESTING_OBJECT, Call.ObjectStart, InObject([], None));
    }

    method ArrayStart()
      requires Valid() && (Accepting(doc) ==> nestingIdx < MAX_DEPTH)
      modifies this, buffer, nesting
      ensures Valid() && doc == Step(old(doc), Call.ArrayStart)
      ensures doc == Broken ==> Output() == old(Output())
    {
      hide Written, Step, Accepting, Nested;
      if error {
        state := Error;
      }
      OnlyErrors(doc, Call.ArrayStart);
      if state == Error {
        return;
      }
      Open('[', InsideArray, NESTING_ARRAY, Call.ArrayStart, InArray([]));
    }

    /** Closes an object or an array: the state is that of the frame it was in. */
    method Close(brace: char, ghost call: Call)
      requires Valid() && doc != Broken
      requires
        || (call == Call.ObjectEnd && brace == '}' && Naming(doc))
        || (call == Call.ArrayEnd && brace == ']' && Listing(doc))
      modifies this, buffer
      ensures Valid() && doc == Step(old(doc), call) && doc != Broken
    {
      hide Written, Step, Nested, StateOf;
      CloseStep(doc, call, brace);
      Put(brace);
      nestingIdx := nestingIdx - 1;
      ghost var below := Below(doc.frames);
      if nestingIdx == 0 {
        state := End;
      } else {
        match nesting[nestingIdx - 1] {
          case 0 => state := ObjectValue;
          case _ => state := ArrayItem;
        }
      }
      doc := Step(doc, call);
    }

    method ObjectEnd()
      requires Valid()
      modifies this, buffer
      ensures Valid() && doc == Step(old(doc), Call.ObjectEnd)
      ensures doc == Broken ==> Output() == old(Output())
    {
      hide Written, Step, Accepting, Nested, StateOf;
      if error {
        state := Error;
      }
      OnlyErrors(doc, Call.ObjectEnd);
      if state == Error {
        return;
      }
      StateTells(doc);
      if state in {InsideObject, ObjectValue} {
        CloseFits(doc, Call.ObjectEnd);
        Close('}', Call.ObjectEnd);
      } else {
        NotClosed(doc, Call.ObjectEnd);
        state := Error;
        doc := Broken;
      }
    }

    method ArrayEnd()
      requires Valid()
      modifies this, buffer
      ensures Valid() && doc == Step(old(doc), Call.ArrayEnd)
      ensures doc == Broken ==> Output() == old(Output())
    {
      hide Written, Step, Accepting, Nested, StateOf;
      if error {
        state := Error;
      }
      OnlyErrors(doc, Call.ArrayEnd);
      if state == Error {
        return;
      }
      StateTells(doc);
      if state in {InsideArray, ArrayItem} {
        CloseFits(doc, Call.ArrayEnd);
        Close(']', Call.ArrayEnd);
      } else {
        NotClosed(doc, Call.ArrayEnd);
        state := Error;
        doc := Broken;
      }
    }

    /** The state after a value: the whole document, or the next one of an array or object. */
    method AfterValue()
      requires state in {Start, ObjectKey, InsideArray, ArrayItem}
      modifies `state
      ensures state == if old(state) == Start then End else if old(state) == ObjectKey then ObjectValue else ArrayItem
    {
      state := if state == Start then End else if state == ObjectKey then ObjectValue else ArrayItem;
    }

    /** A number, a boolean or null. */
    method PutScalar(text: string, ghost call: Call)
      requires Valid() && Scalar(call) && text == TokenOf(call)
      modifies this, buffer
      ensures Valid() && doc == Step(old(doc), call)
      ensures doc == Broken ==> Output() == old(Output())
    {
      hide Written, Step, Accepting, Nested, StateOf, Lead;
      if error {
        state := Error;
      }
      OnlyErrors(doc, call);
      if state == Error {
        return;
      }
      StateTells(doc);
      var accepting := Begin();
      if accepting {
        ScalarStep(doc, call, text);
        Write(text);
        AfterValue();
        doc := Step(doc, call);
      } else {
        NotAccepted(doc, call);
        state := Error;
        doc := Broken;
      }
    }

    method PutInteger(token: string)
      requires Valid()
      modifies this, buffer
      ensures Valid() && doc == Step(old(doc), PutNumber(token))
      ensures doc == Broken ==> Output() == old(Output())
    {
      PutScalar(token, PutNumber(token));
    }

    method PutBool(x: bool)
      requires Valid()
      modifies this, buffer
      ensures Valid() && doc == Step(old(doc), PutBoolean(x))
      ensures doc == Broken ==> Output() == old(Output())
    {
      if x {
        PutScalar("true", PutBoolean(true));
      } else {
        PutScalar("false", PutBoolean(false));
      }
    }

    method PutNil()
      requires Valid()
      modifies this, buffer
      ensures Valid() && doc == Step(old(doc), PutNull)
      ensures doc == Broken ==> Output() == old(Output())
    {
      PutScalar("null", PutNull);
    }

    /** A string between quotes, not escaped. */
    method WriteQuoted(x: string)
      requires Room() && !error
      modifies `pos, `sink, buffer
      ensures Room() && Output() == old(Output()) + Quote(x)
    {
      Put('\"');
      Write(x);
      Put('\"');
      assert old(Output()) + ['\"'] + x + ['\"'] == old(Output()) + Quote(x);
    }

    /** A string as a value, or as the name of the next one. */
    method PutText(x: string)
      requires Valid()
      modifies this, buffer
      ensures Valid() && doc == Step(old(doc), PutString(x))
      ensures doc == Broken ==> Output() == old(Output())
    {
      hide Written, Step, Accepting, Nested, StateOf, Lead, Quote;
      if error {
        state := Error;
      }
      OnlyErrors(doc, PutString(x));
      if state == Error {
        return;
      }
      StateTells(doc);
      if state in {InsideObject, ObjectValue} {
        PutName(x);
        return;
      }
      var accepting := Begin();
      if accepting {
        StringStep(doc, x);
        WriteQuoted(x);
        AfterValue();
        doc := Step(doc, PutString(x));
      } else {
        NotAccepted(doc, PutString(x));
        state := Error;
        doc := Broken;
      }
    }

    method PutName(x: string)
      requires Valid() && doc != Broken && Naming(doc) && state in {InsideObject, ObjectValue}
      modifies this, buffer
      ensures Valid() && doc == Step(old(doc), PutString(x)) && doc != Broken
    {
      hide Written, Step, Accepting, Nested, StateOf, Lead, Quote;
      NameStep(doc, x);
      if state == ObjectValue {
        Put(',');
      }
      WriteQuoted(x);
      Put(':');
      state := ObjectKey;
      doc := Step(doc, PutString(x));
    }
  }

  lemma CloseFits(doc: Doc, call: Call)
    requires (call.ObjectEnd? && Naming(doc)) || (call.ArrayEnd? && Listing(doc))
    ensures doc != Broken
  {}

  lemma NotClosed(doc: Doc, call: Call)
    requires (call.ObjectEnd? && !Naming(doc)) || (call.ArrayEnd? && !Listing(doc))
    ensures Step(doc, call) == Broken && StateOf(Broken) == Error && Nested(Broken)
  {}

  lemma CloseStep(doc: Doc, call: Call, brace: char)
    requires Nested(doc)
    requires
      || (call == Call.ObjectEnd && brace == '}' && Naming(doc))
      || (call == Call.ArrayEnd && brace == ']' && Listing(doc))
    ensures doc.Building? && |doc.frames| > 0
    ensures
      var now, below := Step(doc, call), Below(doc.frames);
      && now != Broken && Nested(now) && Written(now) == Written(doc) + [brace]
      && (if |below| == 0 then now.Done? && StateOf(now) == End
          else
            && now.Building? && |now.frames| == |below|
            && StateOf(now) == (if KindOf(Top(below)) == NESTING_OBJECT then ObjectValue else ArrayItem)
            && forall i :: 0 <= i < |below| ==> KindOf(now.frames[i]) == KindOf(below[i]))
  {
    hide Written, CallsOf, FrameText, FrameCalls;
    BelowAccepts(doc);
    StepWritten(doc, call);
    StepCalls(doc, call);
  }

  /** A value that is not an array or object, put where one may come. */
  lemma ValueStep(doc: Doc, call: Call)
    requires Accepting(doc) && Nested(doc) && !Naming(doc) && (Scalar(call) || call.PutString?)
    ensures
      var now := Step(doc, call);
      && now != Broken && Nested(now) && Written(now) == Written(doc) + Emitted(doc, call)
      && StateOf(now)
         == (if StateOf(doc) == Start then End else if StateOf(doc) == ObjectKey then ObjectValue else ArrayItem)
      && (now.Building? ==>
            |now.frames| == |doc.frames| && forall i :: 0 <= i < |doc.frames| ==>
              KindOf(now.frames[i]) == KindOf(doc.frames[i]))
  {
    hide Written, CallsOf, FrameText, FrameCalls, Emitted;
    StepWritten(doc, call);
    StepCalls(doc, call);
  }

  lemma ScalarEmitted(doc: Doc, call: Call)
    requires Accepting(doc) && Scalar(call)
    ensures Emitted(doc, call) == Lead(doc.frames) + TokenOf(call)
  {
    hide Lead;
  }

  lemma StringEmitted(doc: Doc, x: string)
    requires Accepting(doc) && !Naming(doc)
    ensures Emitted(doc, PutString(x)) == Lead(doc.frames) + Quote(x)
  {
    hide Lead;
  }

  lemma ScalarStep(doc: Doc, call: Call, text: string)
    requires Accepting(doc) && Nested(doc) && Scalar(call) && text == TokenOf(call)
    ensures
      var now := Step(doc, call);
      && now != Broken && Nested(now) && Written(now) == Written(doc) + Lead(doc.frames) + text
      && StateOf(now)
         == (if StateOf(doc) == Start then End else if StateOf(doc) == ObjectKey then ObjectValue else ArrayItem)
      && (now.Building? ==>
            |now.frames| == |doc.frames| && forall i :: 0 <= i < |doc.frames| ==>
              KindOf(now.frames[i]) == KindOf(doc.frames[i]))
  {
    hide Written, Step, StateOf, Emitted, Lead, Nested;
    ScalarEmitted(doc, call);
    ValueStep(doc, call);
    assert Written(doc) + (Lead(doc.frames) + text) == Written(doc) + Lead(doc.frames) + text;
  }

  lemma StringStep(doc: Doc, x: string)
    requires Accepting(doc) && Nested(doc) && !Naming(doc)
    ensures
      var now := Step(doc, PutString(x));
      && now != Broken && Nested(now) && Written(now) == Written(doc) + Lead(doc.frames) + Quote(x)
      && StateOf(now)
         == (if StateOf(doc) == Start then End else if StateOf(doc) == ObjectKey then ObjectValue else ArrayItem)
      && (now.Building? ==>
            |now.frames| == |doc.frames| && forall i :: 0 <= i < |doc.frames| ==>
              KindOf(now.frames[i]) == KindOf(doc.frames[i]))
  {
    hide Written, Step, StateOf, Emitted, Lead, Nested, Quote;
    StringEmitted(doc, x);
    ValueStep(doc, PutString(x));
    assert Written(doc) + (Lead(doc.frames) + Quote(x)) == Written(doc) + Lead(doc.frames) + Quote(x);
  }

  lemma NameStep(doc: Doc, x: string)
    requires Nested(doc) && Naming(doc)
    ensures
      var now := Step(doc, PutString(x));
      && now.Building? && Nested(now) && StateOf(now) == ObjectKey
      && Written(now) == Written(doc) + ((if StateOf(doc) == ObjectValue then "," else "") + (Quote(x) + ":"))
      && |now.frames| == |doc.frames| && forall i :: 0 <= i < |doc.frames| ==>
        KindOf(now.frames[i]) == KindOf(doc.frames[i])
  {
    hide Written, CallsOf, FrameText, FrameCalls, Quote;
    StepWritten(doc, PutString(x));
    StepCalls(doc, PutString(x));
  }

  /** The calls nest no deeper than the writer's stack. */
  predicate Shallow(doc: Doc, calls: seq<Call>)
    decreases |calls|
  {
    |calls| == 0 || (
      && ((calls[0].ObjectStart? || calls[0].ArrayStart?) && Accepting(doc) ==> |doc.frames| < MAX_DEPTH)
      && Shallow(Step(doc, calls[0]), calls[1..]))
  }

  /** Makes the calls, then the last flush: what was flushed is the text so far of the document they describe, and
      the end is reached exactly by the calls of a value, with the text of that value. */
  method Perform(calls: seq<Call>) returns (sink: string, ended: bool)
    requires Shallow(START, calls)
    ensures Steps(START, calls) != Broken ==> sink == Written(Steps(START, calls))
    ensures ended <==> Steps(START, calls).Done?
    ensures ended ==> var v := Steps(START, calls).v; calls == Calls(v) && sink == Raw(v)
  {
    hide Step, Written, StateOf, Nested, Raw, Calls;
    var s := new Stream();
    for i := 0 to |calls|
      invariant s.Valid() && fresh(s) && fresh(s.buffer) && fresh(s.nesting)
      invariant Shallow(s.doc, calls[i..]) && Steps(START, calls) == Steps(s.doc, calls[i..])
    {
      assert calls[i..][1..] == calls[i + 1..];
      PerformOne(s, calls[i]);
    }
    ghost var doc := s.doc;
    assert doc == Steps(START, calls);
    DoneTells(doc);
    if doc.Done? {
      DescribedOnce(calls, doc.v);
    }
    ended := s.state == End;
    s.Flush();
    sink := s.sink;
  }

  lemma {:induction false} DeepestOf(items: seq<Value>, i: nat)
    requires i < |items|
    ensures Nesting(items[i]) <= Deepest(items)
    decreases |items|
  {
    if i > 0 {
      DeepestOf(items[1..], i - 1);
    }
  }

  lemma {:induction false} DeepestMemberOf(members: seq<Member>, i: nat)
    requires i < |members|
    ensures Nesting(members[i].value) <= DeepestMember(members)
    decreases |members|
  {
    if i > 0 {
      DeepestMemberOf(members[1..], i - 1);
    }
  }

  /** One call that does not nest too deeply, before others that do not. */
  lemma ShallowFirst(doc: Doc, call: Call, rest: seq<Call>)
    requires Shallow(Step(doc, call), rest)
    requires (call.ObjectStart? || call.ArrayStart?) && Accepting(doc) ==> |doc.frames| < MAX_DEPTH
    ensures Shallow(doc, [call] + rest)
  {
    hide Step, Accepting;
    assert ([call] + rest)[0] == call && ([call] + rest)[1..] == rest;
  }

  /** The calls of a value nested no deeper than the stack is left are shallow. */
  lemma {:induction false} CallsShallow(doc: Doc, v: Value, rest: seq<Call>)
    requires Accepting(doc) && |doc.frames| + Nesting(v) <= MAX_DEPTH && Shallow(Attach(doc, v), rest)
    ensures Shallow(doc, Calls(v) + rest)
    decreases v, 0
  {
    hide Shallow, ItemCalls, MemberCalls, Attach, Accepting, Deepest, DeepestMember;
    match v
    case Array(items) =>
      ArrayShallow(doc, items, rest);
    case Object(members) =>
      ObjectShallow(doc, members, rest);
    case Null => ShallowFirst(doc, PutNull, rest);
    case False => ShallowFirst(doc, PutBoolean(false), rest);
    case True => ShallowFirst(doc, PutBoolean(true), rest);
    case Number(token) => ShallowFirst(doc, PutNumber(token), rest);
    case String(text) =>
      AcceptingNotNaming(doc);
      ShallowFirst(doc, PutString(text), rest);
  }

  lemma AcceptingNotNaming(doc: Doc)
    requires Accepting(doc)
    ensures !Naming(doc)
  {}

  lemma ArrayShallow(doc: Doc, items: seq<Value>, rest: seq<Call>)
    requires Accepting(doc) && |doc.frames| + 1 + Deepest(items) <= MAX_DEPTH
    requires Shallow(Attach(doc, Array(items)), rest)
    ensures Shallow(doc, Calls(Array(items)) + rest)
    decreases items, 2
  {
    hide Shallow, Attach, ItemCalls, Deepest;
    var fs := doc.frames;
    forall i | 0 <= i < |items|
      ensures |fs| + 1 + Nesting(items[i]) <= MAX_DEPTH
    {
      DeepestOf(items, i);
    }
    assert Below(fs + [InArray(items)]) == fs;
    ShallowFirst(Building(fs + [InArray(items)]), Call.ArrayEnd, rest);
    ItemsShallow(fs, items, [Call.ArrayEnd] + rest);
    ShallowFirst(doc, Call.ArrayStart, ItemCalls(items) + ([Call.ArrayEnd] + rest));
    assert Calls(Array(items)) + rest == [Call.ArrayStart] + (ItemCalls(items) + ([Call.ArrayEnd] + rest));
  }

  lemma {:induction false} ItemsShallow(fs: seq<Frame>, items: seq<Value>, rest: seq<Call>)
    requires forall i :: 0 <= i < |items| ==> |fs| + 1 + Nesting(items[i]) <= MAX_DEPTH
    requires Shallow(Building(fs + [InArray(items)]), rest)
    ensures Shallow(Building(fs + [InArray([])]), ItemCalls(items) + rest)
    decreases items, 1
  {
    hide Shallow, Calls, Nesting;
    if |items| == 0 {
      assert items == [] && [] + rest == rest;
    } else {
      var init, v := items[..|items| - 1], items[|items| - 1];
      assert Below(fs + [InArray(init)]) == fs && init + [v] == items;
      CallsShallow(Building(fs + [InArray(init)]), v, rest);
      ItemsShallow(fs, init, Calls(v) + rest);
      assert ItemCalls(init) + (Calls(v) + rest) == ItemCalls(items) + rest;
    }
  }

  lemma ObjectShallow(doc: Doc, members: seq<Member>, rest: seq<Call>)
    requires Accepting(doc) && |doc.frames| + 1 + DeepestMember(members) <= MAX_DEPTH
    requires Shallow(Attach(doc, Object(members)), rest)
    ensures Shallow(doc, Calls(Object(members)) + rest)
    decreases members, 2
  {
    hide Shallow, Attach, MemberCalls, DeepestMember;
    var fs := doc.frames;
    forall i | 0 <= i < |members|
      ensures |fs| + 1 + Nesting(members[i].value) <= MAX_DEPTH
    {
      DeepestMemberOf(members, i);
    }
    assert Below(fs + [InObject(members, None)]) == fs;
    ShallowFirst(Building(fs + [InObject(members, None)]), Call.ObjectEnd, rest);
    MembersShallow(fs, members, [Call.ObjectEnd] + rest);
    ShallowFirst(doc, Call.ObjectStart, MemberCalls(members) + ([Call.ObjectEnd] + rest));
    assert Calls(Object(members)) + rest == [Call.ObjectStart] + (MemberCalls(members) + ([Call.ObjectEnd] + rest));
  }

  lemma {:induction false} MembersShallow(fs: seq<Frame>, members: seq<Member>, rest: seq<Call>)
    requires forall i :: 0 <= i < |members| ==> |fs| + 1 + Nesting(members[i].value) <= MAX_DEPTH
    requires Shallow(Building(fs + [InObject(members, None)]), rest)
    ensures Shallow(Building(fs + [InObject([], None)]), MemberCalls(members) + rest)
    decreases members, 1
  {
    hide Shallow, Calls, Nesting;
    if |members| == 0 {
      assert members == [] && [] + rest == rest;
    } else {
      var init, m := members[..|members| - 1], members[|members| - 1];
      var waiting, named := Building(fs + [InObject(init, None)]), Building(fs + [InObject(init, Some(m.key))]);
      assert Below(waiting.frames) == fs && Below(named.frames) == fs && init + [m] == members;
      CallsShallow(named, m.value, rest);
      ShallowFirst(waiting, PutString(m.key), Calls(m.value) + rest);
      MembersShallow(fs, init, [PutString(m.key)] + (Calls(m.value) + rest));
      assert MemberCalls(init) + ([PutString(m.key)] + (Calls(m.value) + rest)) == MemberCalls(members) + rest;
    }
  }

  lemma NothingShallow(doc: Doc, call: Call, rest: seq<Call>)
    requires (call.ObjectStart? || call.ArrayStart?) && Accepting(doc) && |doc.frames| >= MAX_DEPTH
    ensures !Shallow(doc, [call] + rest)
  {}

  /** What comes after shallow calls has to be shallow as well. */
  lemma {:induction false} ShallowAfter(doc: Doc, a: seq<Call>, b: seq<Call>)
    requires Shallow(doc, a + b)
    ensures Shallow(Steps(doc, a), b)
    decreases |a|
  {
    hide Step, Accepting;
    if |a| == 0 {
      assert a + b == b;
    } else {
      assert (a + b)[0] == a[0] && (a + b)[1..] == a[1..] + b;
      ShallowAfter(Step(doc, a[0]), a[1..], b);
    }
  }

  /** The calls of a value nested deeper than the stack is left are not. */
  lemma {:induction false} CallsTooDeep(doc: Doc, v: Value, rest: seq<Call>)
    requires Accepting(doc) && |doc.frames| <= MAX_DEPTH < |doc.frames| + Nesting(v)
    ensures !Shallow(doc, Calls(v) + rest)
    decreases v, 0
  {
    hide Shallow, ItemCalls, MemberCalls, Deepest, DeepestMember, Steps;
    match v
    case Array(items) =>
      var inner := ItemCalls(items) + ([Call.ArrayEnd] + rest);
      assert Calls(v) + rest == [Call.ArrayStart] + inner;
      if |doc.frames| == MAX_DEPTH {
        NothingShallow(doc, Call.ArrayStart, inner);
      } else {
        ItemsTooDeep(doc.frames, items, [Call.ArrayEnd] + rest);
        if Shallow(doc, [Call.ArrayStart] + inner) {
          ShallowAfter(doc, [Call.ArrayStart], inner);
          OneStep(doc, Call.ArrayStart);
        }
      }
    case Object(members) =>
      var inner := MemberCalls(members) + ([Call.ObjectEnd] + rest);
      assert Calls(v) + rest == [Call.ObjectStart] + inner;
      if |doc.frames| == MAX_DEPTH {
        NothingShallow(doc, Call.ObjectStart, inner);
      } else {
        MembersTooDeep(doc.frames, members, [Call.ObjectEnd] + rest);
        if Shallow(doc, [Call.ObjectStart] + inner) {
          ShallowAfter(doc, [Call.ObjectStart], inner);
          OneStep(doc, Call.ObjectStart);
        }
      }
    case _ =>
  }

  lemma {:induction false} ItemsTooDeep(fs: seq<Frame>, items: seq<Value>, rest: seq<Call>)
    requires |fs| < MAX_DEPTH < |fs| + 1 + Deepest(items)
    ensures !Shallow(Building(fs + [InArray([])]), ItemCalls(items) + rest)
    decreases items, 1
  {
    hide Shallow, Calls, Nesting, Steps;
    if |items| > 0 {
      var init, v := items[..|items| - 1], items[|items| - 1];
      var open, there := Building(fs + [InArray([])]), Building(fs + [InArray(init)]);
      DeepestLast(items);
      assert ItemCalls(items) + rest == ItemCalls(init) + (Calls(v) + rest);
      if |fs| + 1 + Nesting(v) > MAX_DEPTH {
        CallsTooDeep(there, v, rest);
        if Shallow(open, ItemCalls(items) + rest) {
          ShallowAfter(open, ItemCalls(init), Calls(v) + rest);
          ItemsAttach(fs, init);
        }
      } else {
        ItemsTooDeep(fs, init, Calls(v) + rest);
      }
    }
  }

  lemma {:induction false} MembersTooDeep(fs: seq<Frame>, members: seq<Member>, rest: seq<Call>)
    requires |fs| < MAX_DEPTH < |fs| + 1 + DeepestMember(members)
    ensures !Shallow(Building(fs + [InObject([], None)]), MemberCalls(members) + rest)
    decreases members, 1
  {
    hide Shallow, Calls, Nesting, Steps;
    if |members| > 0 {
      var init, m := members[..|members| - 1], members[|members| - 1];
      var open, there := Building(fs + [InObject([], None)]), Building(fs + [InObject(init, None)]);
      DeepestMemberLast(members);
      var name := [PutString(m.key)];
      assert MemberCalls(members) + rest == MemberCalls(init) + (name + (Calls(m.value) + rest));
      if |fs| + 1 + Nesting(m.value) > MAX_DEPTH {
        assert Below(there.frames) == fs;
        CallsTooDeep(Building(fs + [InObject(init, Some(m.key))]), m.value, rest);
        if Shallow(open, MemberCalls(members) + rest) {
          ShallowAfter(open, MemberCalls(init), name + (Calls(m.value) + rest));
          MembersAttach(fs, init);
          ShallowAfter(there, name, Calls(m.value) + rest);
          OneStep(there, PutString(m.key));
        }
      } else {
        MembersTooDeep(fs, init, name + (Calls(m.value) + rest));
      }
    }
  }

  lemma {:induction false} DeepestLast(items: seq<Value>)
    requires |items| > 0
    ensures Deepest(items) == Max(Deepest(items[..|items| - 1]), Nesting(items[|items| - 1]))
    decreases |items|
  {
    hide Nesting;
    if |items| > 1 {
      assert items[1..][..|items| - 2] == items[..|items| - 1][1..];
      DeepestLast(items[1..]);
    }
  }

  lemma {:induction false} DeepestMemberLast(members: seq<Member>)
    requires |members| > 0
    ensures DeepestMember(members) == Max(DeepestMember(members[..|members| - 1]),
      Nesting(members[|members| - 1].value))
    decreases |members|
  {
    hide Nesting;
    if |members| > 1 {
      assert members[1..][..|members| - 2] == members[..|members| - 1][1..];
      DeepestMemberLast(members[1..]);
    }
  }

  function Max(a: nat, b: nat): nat {
    if a < b then b else a
  }

  /** Exactly the values nested at most thirty deep can be written inside the stack. */
  lemma CanBeWritten(v: Value)
    ensures Shallow(START, Calls(v)) <==> Nesting(v) <= MAX_DEPTH
  {
    hide Calls, Shallow, Nesting;
    assert Calls(v) + [] == Calls(v);
    if Nesting(v) <= MAX_DEPTH {
      assert Shallow(Done(v), []) by { NoCalls(Done(v)); }
      CallsShallow(START, v, []);
    } else {
      CallsTooDeep(START, v, []);
    }
  }

  /** The place in the stack that a call writes, if it writes one. */
  function Pushed(doc: Doc, call: Call): Option<nat> {
    if (call.ObjectStart? || call.ArrayStart?) && Accepting(doc) then Some(|doc.frames|) else None
  }

  predicate PushInside(doc: Doc, calls: seq<Call>, k: nat)
    requires k < |calls|
  {
    match Pushed(Steps(doc, calls[..k]), calls[k]) case None => true case Some(i) => i < MAX_DEPTH
  }

  /** Calls are shallow exactly if each of them writes inside the stack. */
  lemma {:induction false} ShallowIffInside(doc: Doc, calls: seq<Call>)
    ensures Shallow(doc, calls) <==> forall k :: 0 <= k < |calls| ==> PushInside(doc, calls, k)
    decreases |calls|
  {
    hide Step, Accepting, PushInside;
    if |calls| > 0 {
      var rest := calls[1..];
      ShallowIffInside(Step(doc, calls[0]), rest);
      FirstPush(doc, calls);
      forall k | 0 <= k < |rest|
        ensures PushInside(Step(doc, calls[0]), rest, k) <==> PushInside(doc, calls, k + 1)
      {
        LaterPush(doc, calls, k);
      }
      if forall k :: 0 <= k < |rest| ==> PushInside(Step(doc, calls[0]), rest, k) {
        forall k | 0 < k < |calls|
          ensures PushInside(doc, calls, k)
        {
          assert PushInside(Step(doc, calls[0]), rest, k - 1);
        }
      }
    }
  }

  lemma FirstPush(doc: Doc, calls: seq<Call>)
    requires |calls| > 0
    ensures PushInside(doc, calls, 0)
            <==> ((calls[0].ObjectStart? || calls[0].ArrayStart?) && Accepting(doc) ==> |doc.frames| < MAX_DEPTH)
  {
    assert Steps(doc, calls[..0]) == doc;
  }

  lemma LaterPush(doc: Doc, calls: seq<Call>, k: nat)
    requires k + 1 < |calls|
    ensures PushInside(Step(doc, calls[0]), calls[1..], k) <==> PushInside(doc, calls, k + 1)
  {
    hide Step;
    assert calls[..k + 1][1..] == calls[1..][..k] && calls[..k + 1][0] == calls[0];
  }

  lemma {:induction false} StartsBuild(n: nat, k: nat)
    requires k <= n
    ensures
      var doc := Steps(START, seq(n, i => Call.ArrayStart)[..k]);
      doc.Building? && Accepting(doc) && |doc.frames| == k
    decreases k
  {
    var starts := seq(n, i => Call.ArrayStart);
    if k > 0 {
      StartsBuild(n, k - 1);
      assert starts[..k] == starts[..k - 1] + [Call.ArrayStart];
      StepsJoin(START, starts[..k - 1], [Call.ArrayStart]);
      OneStep(Steps(START, starts[..k - 1]), Call.ArrayStart);
    } else {
      assert starts[..0] == [];
    }
  }

  /** The last of 31 starts writes the place behind a stack of 30. */
  lemma LastStartIsOutside()
    ensures
      var starts := seq(31, i => Call.ArrayStart);
      && Pushed(Steps(START, starts[..30]), starts[30]) == Some(MAX_DEPTH)
      && !Shallow(START, starts)
  {
    hide Steps, Accepting, Shallow;
    var starts := seq(31, i => Call.ArrayStart);
    StartsBuild(31, 30);
    ShallowIffInside(START, starts);
    assert !PushInside(START, starts, 30);
  }

  lemma NoCalls(doc: Doc)
    ensures Shallow(doc, [])
  {}

  /** What the writer makes of a value the parser takes back exactly if no string or name in it has a quote or a
      backslash. */
  method WriteThenParse(v: Value) returns (text: string)
    requires Good(v) && Nesting(v) <= MAX_DEPTH
    ensures NoNul(text) && text == Raw(v)
    ensures JsonGrammar.Parse(text, true) == JsonGrammar.Ok(v, |text|) <==> UnquotedStrings(v)
  {
    hide Calls, Shallow, Raw, Text, UnquotedStrings, Nesting;
    CanBeWritten(v);
    CallsDescribe(v);
    var ended;
    text, ended := Perform(Calls(v));
    RawRoundTrip(v, true);
  }

  /** Strings are not escaped: one with a quote in it is not taken back. */
  lemma QuoteIsNotTakenBack()
    ensures JsonGrammar.Parse(Raw(String("\"")), false) == JsonGrammar.Ok(String(""), 2)
    ensures JsonGrammar.Parse(Raw(String("\"")), true) == JsonGrammar.Fail
  {
    var c := "\"\"\"\0";
    assert Raw(String("\"")) + "\0" == c;
    JsonRoundTrip.NoMark(c);
    JsonRoundTrip.NotWord(c, 0);
    assert JsonGrammar.CloseQuote(c, 1) == JsonGrammar.Ok((), 1);
    assert JsonGrammar.Unescaped(c, 1, 1) == JsonGrammar.Ok("", 1);
    assert JsonGrammar.ParseString(c, 0) == JsonGrammar.Ok("", 2);
  }

  method PerformOne(s: Stream, call: Call)
    requires s.Valid()
    requires (call.ObjectStart? || call.ArrayStart?) && Accepting(s.doc) ==> |s.doc.frames| < MAX_DEPTH
    modifies s, s.buffer, s.nesting
    ensures s.Valid() && s.doc == Step(old(s.doc), call)
  {
    hide Step, Written, StateOf, Nested;
    match call
    case ObjectStart => s.ObjectStart();
    case ObjectEnd => s.ObjectEnd();
    case ArrayStart => s.ArrayStart();
    case ArrayEnd => s.ArrayEnd();
    case PutNumber(token) => s.PutInteger(token);
    case PutString(text) => s.PutText(text);
    case PutBoolean(b) => s.PutBool(b);
    case PutNull => s.PutNil();
  }

  lemma DoneTells(doc: Doc)
    ensures StateOf(doc) == End <==> doc.Done?
    ensures doc.Done? ==> Written(doc) == Raw(doc.v)
  {}

  /** The error state is that of no document, and it stays. */
  lemma OnlyErrors(doc: Doc, call: Call)
    ensures StateOf(doc) == Error <==> doc == Broken
    ensures doc == Broken ==> Step(doc, call) == Broken
  {}

  lemma OpenStep(doc: Doc, call: Call, f: Frame, brace: char)
    requires Accepting(doc) && Nested(doc)
    requires
      || (call == Call.ObjectStart && f == InObject([], None) && brace == '{')
      || (call == Call.ArrayStart && f == InArray([]) && brace == '[')
    ensures Step(doc, call) == Building(doc.frames + [f]) && Nested(Building(doc.frames + [f]))
    ensures StateOf(Building(doc.frames + [f])) == if f.InObject? then InsideObject else InsideArray
    ensures Written(Building(doc.frames + [f])) == Written(doc) + Lead(doc.frames) + [brace]
  {
    hide Written, Lead, CallsOf, FrameText, FrameCalls;
    StepWritten(doc, call);
    StepCalls(doc, call);
  }

  lemma NotAccepted(doc: Doc, call: Call)
    requires !Accepting(doc)
    requires call.ObjectStart? || call.ArrayStart? || Scalar(call) || (call.PutString? && !Naming(doc))
    ensures Step(doc, call) == Broken && StateOf(Broken) == Error && Nested(Broken)
  {}

  /** The states in which a value may come, and the one in which a comma comes before it. */
  lemma StateTells(doc: Doc)
    requires doc != Broken
    ensures Accepting(doc) <==> StateOf(doc) in {Start, ObjectKey, InsideArray, ArrayItem}
    ensures Accepting(doc) || Naming(doc) || Listing(doc) ==> doc.Building?
    ensures Naming(doc) <==> StateOf(doc) in {InsideObject, ObjectValue}
    ensures Listing(doc) <==> StateOf(doc) in {InsideArray, ArrayItem}
    ensures doc.Building? ==> Lead(doc.frames) == if StateOf(doc) == ArrayItem then "," else ""
  {}
}
