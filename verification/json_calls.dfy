/** What a sequence of writer calls describes: a value under construction, as the frames that are open. */
module JsonCalls {
  import opened JsonText
  import opened Options

  datatype Call =
    | ObjectStart
    | ObjectEnd
    | ArrayStart
    | ArrayEnd
    | PutNumber(token: string)
    | PutString(text: string)
    | PutBoolean(b: bool)
    | PutNull

  /** An array or object not yet closed; in an object, the name whose value is still to come. */
  datatype Frame = InArray(items: seq<Value>) | InObject(members: seq<Member>, key: Option<string>)

  /** What has been written: open frames, the innermost last; a whole value; or calls that fit no value. */
  datatype Doc = Building(frames: seq<Frame>) | Done(v: Value) | Broken

  function Top(frames: seq<Frame>): Frame
    requires |frames| > 0
  {
    frames[|frames| - 1]
  }

  function Below(frames: seq<Frame>): seq<Frame>
    requires |frames| > 0
  {
    frames[..|frames| - 1]
  }

  /** A value may come next. */
  predicate Accepting(doc: Doc) {
    doc.Building? && (|doc.frames| == 0 || Top(doc.frames).InArray? || Top(doc.frames).key.Some?)
  }

  /** A value comes next. */
  function Attach(doc: Doc, v: Value): Doc
    requires Accepting(doc)
  {
    var fs := doc.frames;
    if |fs| == 0 then Done(v)
    else
      match Top(fs)
      case InArray(items) => Building(Below(fs) + [InArray(items + [v])])
      case InObject(members, key) => Building(Below(fs) + [InObject(members + [Member(key.value, v)], None)])
  }

  /** The innermost open frame is an object that waits for a name. */
  predicate Naming(doc: Doc) {
    doc.Building? && |doc.frames| > 0 && Top(doc.frames).InObject? && Top(doc.frames).key.None?
  }

  predicate Listing(doc: Doc) {
    doc.Building? && |doc.frames| > 0 && Top(doc.frames).InArray?
  }

  function Step(doc: Doc, call: Call): Doc {
    match call
    case ObjectStart => if Accepting(doc) then Building(doc.frames + [InObject([], None)]) else Broken
    case ArrayStart => if Accepting(doc) then Building(doc.frames + [InArray([])]) else Broken
    case ObjectEnd =>
      if Naming(doc) && Accepting(Building(Below(doc.frames)))
      then Attach(Building(Below(doc.frames)), Object(Top(doc.frames).members)) else Broken
    case ArrayEnd =>
      if Listing(doc) && Accepting(Building(Below(doc.frames)))
      then Attach(Building(Below(doc.frames)), Array(Top(doc.frames).items)) else Broken
    case PutString(text) =>
      if Naming(doc) then Building(Below(doc.frames) + [InObject(Top(doc.frames).members, Some(text))])
      else if Accepting(doc) then Attach(doc, String(text))
      else Broken
    case PutNumber(token) => if Accepting(doc) then Attach(doc, Number(token)) else Broken
    case PutBoolean(b) => if Accepting(doc) then Attach(doc, if b then True else False) else Broken
    case PutNull => if Accepting(doc) then Attach(doc, Null) else Broken
  }

  function Steps(doc: Doc, calls: seq<Call>): Doc
    decreases |calls|
  {
    if |calls| == 0 then doc else Steps(Step(doc, calls[0]), calls[1..])
  }

  lemma {:induction false} StepsJoin(doc: Doc, a: seq<Call>, b: seq<Call>)
    ensures Steps(doc, a + b) == Steps(Steps(doc, a), b)
    decreases |a|
  {
    hide Step;
    if |a| == 0 {
      assert a + b == b;
    } else {
      assert (a + b)[0] == a[0] && (a + b)[1..] == a[1..] + b;
      StepsJoin(Step(doc, a[0]), a[1..], b);
    }
  }

  /** The calls that describe a value. */
  function Calls(v: Value): seq<Call>
    decreases v
  {
    match v
    case Null => [PutNull]
    case False => [PutBoolean(false)]
    case True => [PutBoolean(true)]
    case Number(token) => [PutNumber(token)]
    case String(text) => [PutString(text)]
    case Array(items) => [ArrayStart] + ItemCalls(items) + [ArrayEnd]
    case Object(members) => [ObjectStart] + MemberCalls(members) + [ObjectEnd]
  }

  function ItemCalls(items: seq<Value>): seq<Call>
    decreases items
  {
    if |items| == 0 then [] else ItemCalls(items[..|items| - 1]) + Calls(items[|items| - 1])
  }

  function MemberCalls(members: seq<Member>): seq<Call>
    decreases members
  {
    if |members| == 0 then []
    else
      MemberCalls(members[..|members| - 1])
      + ([PutString(members[|members| - 1].key)] + Calls(members[|members| - 1].value))
  }

  /** The calls of a value, made where a value may come, put that value there. */
  lemma {:induction false} CallsAttach(doc: Doc, v: Value)
    requires Accepting(doc)
    ensures Steps(doc, Calls(v)) == Attach(doc, v)
    decreases v, 0
  {
    match v
    case Array(items) =>
      var open := Building(doc.frames + [InArray([])]);
      assert [ArrayStart] + ItemCalls(items) + [ArrayEnd] == [ArrayStart] + (ItemCalls(items) + [ArrayEnd]);
      assert Step(doc, ArrayStart) == open;
      StepsJoin(doc, [ArrayStart], ItemCalls(items) + [ArrayEnd]);
      OneStep(doc, ArrayStart);
      ItemsAttach(doc.frames, items);
      StepsJoin(open, ItemCalls(items), [ArrayEnd]);
      CloseArray(doc.frames, items);
    case Object(members) =>
      var open := Building(doc.frames + [InObject([], None)]);
      assert [ObjectStart] + MemberCalls(members) + [ObjectEnd] == [ObjectStart] + (MemberCalls(members) + [ObjectEnd]);
      assert Step(doc, ObjectStart) == open;
      StepsJoin(doc, [ObjectStart], MemberCalls(members) + [ObjectEnd]);
      OneStep(doc, ObjectStart);
      MembersAttach(doc.frames, members);
      StepsJoin(open, MemberCalls(members), [ObjectEnd]);
      CloseObject(doc.frames, members);
    case Null => OneStep(doc, PutNull);
    case False => OneStep(doc, PutBoolean(false));
    case True => OneStep(doc, PutBoolean(true));
    case Number(token) => OneStep(doc, PutNumber(token));
    case String(text) => OneStep(doc, PutString(text));
  }

  lemma OneStep(doc: Doc, call: Call)
    ensures Steps(doc, [call]) == Step(doc, call)
  {
    hide Step;
    assert Steps(Step(doc, call), []) == Step(doc, call);
  }

  lemma CloseArray(fs: seq<Frame>, items: seq<Value>)
    requires Accepting(Building(fs))
    ensures Steps(Building(fs + [InArray(items)]), [ArrayEnd]) == Attach(Building(fs), Array(items))
  {
    OneStep(Building(fs + [InArray(items)]), ArrayEnd);
    assert Below(fs + [InArray(items)]) == fs;
  }

  lemma CloseObject(fs: seq<Frame>, members: seq<Member>)
    requires Accepting(Building(fs))
    ensures Steps(Building(fs + [InObject(members, None)]), [ObjectEnd]) == Attach(Building(fs), Object(members))
  {
    OneStep(Building(fs + [InObject(members, None)]), ObjectEnd);
    assert Below(fs + [InObject(members, None)]) == fs;
  }

  lemma {:induction false} ItemsAttach(fs: seq<Frame>, items: seq<Value>)
    ensures Steps(Building(fs + [InArray([])]), ItemCalls(items)) == Building(fs + [InArray(items)])
    decreases items, 1
  {
    hide Step;
    var open := Building(fs + [InArray([])]);
    if |items| == 0 {
      assert items == [];
    } else {
      var rest, v := items[..|items| - 1], items[|items| - 1];
      ItemsAttach(fs, rest);
      StepsJoin(open, ItemCalls(rest), Calls(v));
      CallsAttach(Building(fs + [InArray(rest)]), v);
      assert Below(fs + [InArray(rest)]) == fs;
      assert rest + [v] == items;
    }
  }

  lemma {:induction false} MembersAttach(fs: seq<Frame>, members: seq<Member>)
    ensures Steps(Building(fs + [InObject([], None)]), MemberCalls(members)) == Building(fs + [InObject(members, None)])
    decreases members, 1
  {
    var open := Building(fs + [InObject([], None)]);
    if |members| == 0 {
      assert members == [];
    } else {
      var rest, m := members[..|members| - 1], members[|members| - 1];
      MembersAttach(fs, rest);
      var named := Building(fs + [InObject(rest, Some(m.key))]);
      StepsJoin(open, MemberCalls(rest), [PutString(m.key)] + Calls(m.value));
      var waiting := Building(fs + [InObject(rest, None)]);
      StepsJoin(waiting, [PutString(m.key)], Calls(m.value));
      OneStep(waiting, PutString(m.key));
      assert Below(fs + [InObject(rest, None)]) == fs;
      CallsAttach(named, m.value);
      assert Below(fs + [InObject(rest, Some(m.key))]) == fs;
      assert rest + [m] == members;
    }
  }

  const START: Doc := Building([])

  /** The calls of a value describe that value. */
  lemma CallsDescribe(v: Value)
    ensures Steps(START, Calls(v)) == Done(v)
  {
    CallsAttach(START, v);
  }

  /** Every open frame but the innermost waits for the value inside it. */
  predicate Nested(doc: Doc) {
    doc.Building? ==>
      forall i :: 0 <= i < |doc.frames| - 1 ==> doc.frames[i].InArray? || doc.frames[i].key.Some?
  }

  function OpenCalls(f: Frame): seq<Call> {
    match f
    case InArray(items) => [ArrayStart] + ItemCalls(items)
    case InObject(members, key) =>
      [ObjectStart] + MemberCalls(members) + if key.Some? then [PutString(key.value)] else []
  }

  function FrameCalls(frames: seq<Frame>): seq<Call> {
    if |frames| == 0 then [] else FrameCalls(Below(frames)) + OpenCalls(Top(frames))
  }

  /** The calls made so far, as the document tells them. */
  function CallsOf(doc: Doc): seq<Call> {
    match doc
    case Building(frames) => FrameCalls(frames)
    case Done(v) => Calls(v)
    case Broken => []
  }

  lemma FramesOnTop(frames: seq<Frame>, f: Frame)
    ensures Below(frames + [f]) == frames && Top(frames + [f]) == f
    ensures FrameCalls(frames + [f]) == FrameCalls(frames) + OpenCalls(f)
  {
    hide OpenCalls;
    assert Below(frames + [f]) == frames;
  }

  lemma AttachCalls(doc: Doc, v: Value)
    requires Accepting(doc)
    ensures CallsOf(Attach(doc, v)) == CallsOf(doc) + Calls(v)
  {
    hide Calls, OpenCalls;
    var fs := doc.frames;
    if |fs| == 0 {
      assert [] + Calls(v) == Calls(v);
    } else if Top(fs).InArray? {
      FramesOnTop(Below(fs), InArray(Top(fs).items + [v]));
      OpenItem(Top(fs).items, v);
      assert FrameCalls(Below(fs)) + (OpenCalls(Top(fs)) + Calls(v))
        == (FrameCalls(Below(fs)) + OpenCalls(Top(fs))) + Calls(v);
    } else {
      var members, key := Top(fs).members, Top(fs).key.value;
      FramesOnTop(Below(fs), InObject(members + [Member(key, v)], None));
      OpenMember(members, key, v);
      assert FrameCalls(Below(fs)) + (OpenCalls(Top(fs)) + Calls(v))
        == (FrameCalls(Below(fs)) + OpenCalls(Top(fs))) + Calls(v);
    }
  }

  lemma OpenItem(items: seq<Value>, v: Value)
    ensures OpenCalls(InArray(items + [v])) == OpenCalls(InArray(items)) + Calls(v)
  {
    hide Calls;
    assert (items + [v])[..|items|] == items;
  }

  lemma OpenMember(members: seq<Member>, key: string, v: Value)
    ensures OpenCalls(InObject(members + [Member(key, v)], None))
      == OpenCalls(InObject(members, Some(key))) + Calls(v)
  {
    hide Calls;
    assert (members + [Member(key, v)])[..|members|] == members;
    assert [ObjectStart] + (MemberCalls(members) + ([PutString(key)] + Calls(v))) + []
      == ([ObjectStart] + MemberCalls(members) + [PutString(key)]) + Calls(v);
  }

  lemma AttachNested(doc: Doc, v: Value)
    requires Accepting(doc) && Nested(doc)
    ensures Nested(Attach(doc, v))
  {}

  lemma BelowAccepts(doc: Doc)
    requires Nested(doc) && doc.Building? && |doc.frames| > 0
    ensures Nested(Building(Below(doc.frames))) && Accepting(Building(Below(doc.frames)))
  {}

  /** A call that fits adds just itself to the calls the document tells. */
  lemma StepCalls(doc: Doc, call: Call)
    requires Nested(doc) && Step(doc, call) != Broken
    ensures Nested(Step(doc, call)) && CallsOf(Step(doc, call)) == CallsOf(doc) + [call]
  {
    hide FrameCalls;
    if call.ObjectStart? {
      FramesOnTop(doc.frames, InObject([], None));
      assert OpenCalls(InObject([], None)) == [ObjectStart];
    } else if call.ArrayStart? {
      FramesOnTop(doc.frames, InArray([]));
      assert OpenCalls(InArray([])) == [ArrayStart];
    } else if call.ObjectEnd? {
      EndObject(doc);
    } else if call.ArrayEnd? {
      EndArray(doc);
    } else if call.PutString? && Naming(doc) {
      NameCalls(doc, call.text);
    } else {
      hide Attach;
      ScalarCalls(doc, call);
    }
  }

  lemma ScalarCalls(doc: Doc, call: Call)
    requires Nested(doc) && Step(doc, call) != Broken
    requires call.PutNumber? || call.PutBoolean? || call.PutNull? || (call.PutString? && !Naming(doc))
    ensures Nested(Step(doc, call)) && CallsOf(Step(doc, call)) == CallsOf(doc) + [call]
  {
    var v := if call.PutNumber? then Number(call.token) else if call.PutBoolean? then (if call.b then True else False)
             else if call.PutNull? then Null else String(call.text);
    assert Calls(v) == [call];
    hide Attach, CallsOf, Nested;
    AttachCalls(doc, v);
    AttachNested(doc, v);
  }

  lemma NameCalls(doc: Doc, text: string)
    requires Nested(doc) && Naming(doc)
    ensures Nested(Step(doc, PutString(text)))
    ensures CallsOf(Step(doc, PutString(text))) == CallsOf(doc) + [PutString(text)]
  {
    hide Calls;
    var below, members := Below(doc.frames), Top(doc.frames).members;
    FramesOnTop(below, InObject(members, Some(text)));
    assert FrameCalls(below) + ([ObjectStart] + MemberCalls(members) + [PutString(text)])
      == FrameCalls(below) + ([ObjectStart] + MemberCalls(members) + []) + [PutString(text)];
  }

  lemma EndObject(doc: Doc)
    requires Nested(doc) && Step(doc, ObjectEnd) != Broken
    ensures Nested(Step(doc, ObjectEnd)) && CallsOf(Step(doc, ObjectEnd)) == CallsOf(doc) + [ObjectEnd]
  {
    var below, members := Below(doc.frames), Top(doc.frames).members;
    BelowAccepts(doc);
    AttachCalls(Building(below), Object(members));
    AttachNested(Building(below), Object(members));
    assert FrameCalls(below) + ([ObjectStart] + MemberCalls(members) + [ObjectEnd])
      == FrameCalls(below) + ([ObjectStart] + MemberCalls(members) + []) + [ObjectEnd];
  }

  lemma EndArray(doc: Doc)
    requires Nested(doc) && Step(doc, ArrayEnd) != Broken
    ensures Nested(Step(doc, ArrayEnd)) && CallsOf(Step(doc, ArrayEnd)) == CallsOf(doc) + [ArrayEnd]
  {
    var below, items := Below(doc.frames), Top(doc.frames).items;
    BelowAccepts(doc);
    AttachCalls(Building(below), Array(items));
    AttachNested(Building(below), Array(items));
    assert FrameCalls(below) + ([ArrayStart] + ItemCalls(items) + [ArrayEnd])
      == FrameCalls(below) + ([ArrayStart] + ItemCalls(items)) + [ArrayEnd];
  }

  lemma {:induction false} StaysBroken(calls: seq<Call>)
    ensures Steps(Broken, calls) == Broken
    decreases |calls|
  {
    if |calls| > 0 {
      StaysBroken(calls[1..]);
    }
  }

  lemma {:induction false} StepsCalls(doc: Doc, calls: seq<Call>)
    requires Nested(doc) && Steps(doc, calls) != Broken
    ensures CallsOf(Steps(doc, calls)) == CallsOf(doc) + calls && Nested(Steps(doc, calls))
    decreases |calls|
  {
    hide Step, CallsOf, Nested;
    if |calls| > 0 {
      if Step(doc, calls[0]) == Broken {
        StaysBroken(calls[1..]);
      }
      StepCalls(doc, calls[0]);
      StepsCalls(Step(doc, calls[0]), calls[1..]);
      assert calls == [calls[0]] + calls[1..];
    }
  }

  /** A sequence of calls describes a value exactly if it is the one sequence of calls of that value. */
  lemma DescribedOnce(calls: seq<Call>, v: Value)
    ensures Steps(START, calls) == Done(v) <==> calls == Calls(v)
  {
    hide Step, Steps, Calls;
    CallsDescribe(v);
    if Steps(START, calls) == Done(v) {
      StepsCalls(START, calls);
      assert CallsOf(START) + calls == calls;
    }
  }

  // ---- The text ----

  function Quote(text: string): string {
    "\"" + text + "\""
  }

  /** The text of a value, with strings as they are. */
  function Raw(v: Value): string
    decreases v
  {
    match v
    case Null => "null"
    case False => "false"
    case True => "true"
    case Number(token) => token
    case String(text) => Quote(text)
    case Array(items) => "[" + RawItems(items) + "]"
    case Object(members) => "{" + RawMembers(members) + "}"
  }

  function CommaIf(more: bool): string {
    if more then "," else ""
  }

  function RawItems(items: seq<Value>): string
    decreases items
  {
    if |items| == 0 then ""
    else RawItems(items[..|items| - 1]) + CommaIf(|items| > 1) + Raw(items[|items| - 1])
  }

  function RawMembers(members: seq<Member>): string
    decreases members
  {
    if |members| == 0 then ""
    else
      RawMembers(members[..|members| - 1]) + CommaIf(|members| > 1) + (Quote(members[|members| - 1].key) + ":")
      + Raw(members[|members| - 1].value)
  }

  function OpenText(f: Frame): string {
    match f
    case InArray(items) => "[" + RawItems(items)
    case InObject(members, key) =>
      "{" + RawMembers(members)
      + if key.Some? then CommaIf(|members| > 0) + (Quote(key.value) + ":") else ""
  }

  /** The comma before a value inside these frames: only in an array that has values already. */
  function Lead(frames: seq<Frame>): string {
    CommaIf(|frames| > 0 && Top(frames).InArray? && |Top(frames).items| > 0)
  }

  function FrameText(frames: seq<Frame>): string {
    if |frames| == 0 then "" else FrameText(Below(frames)) + Lead(Below(frames)) + OpenText(Top(frames))
  }

  /** The text written so far, as the document tells it. */
  function Written(doc: Doc): string {
    match doc
    case Building(frames) => FrameText(frames)
    case Done(v) => Raw(v)
    case Broken => ""
  }

  /** The text a call adds. */
  function Emitted(doc: Doc, call: Call): string {
    match call
    case ObjectStart => (if doc.Building? then Lead(doc.frames) else "") + "{"
    case ArrayStart => (if doc.Building? then Lead(doc.frames) else "") + "["
    case ObjectEnd => "}"
    case ArrayEnd => "]"
    case PutString(text) =>
      if Naming(doc) then CommaIf(|Top(doc.frames).members| > 0) + (Quote(text) + ":")
      else (if doc.Building? then Lead(doc.frames) else "") + Quote(text)
    case PutNumber(token) => (if doc.Building? then Lead(doc.frames) else "") + token
    case PutBoolean(b) => (if doc.Building? then Lead(doc.frames) else "") + if b then "true" else "false"
    case PutNull => (if doc.Building? then Lead(doc.frames) else "") + "null"
  }

  lemma TextOnTop(frames: seq<Frame>, f: Frame)
    ensures Below(frames + [f]) == frames && Top(frames + [f]) == f
    ensures FrameText(frames + [f]) == FrameText(frames) + Lead(frames) + OpenText(f)
  {
    hide OpenText, Lead;
    assert Below(frames + [f]) == frames;
  }

  lemma AttachWritten(doc: Doc, v: Value)
    requires Accepting(doc)
    ensures Written(Attach(doc, v)) == Written(doc) + (Lead(doc.frames) + Raw(v))
  {
    hide Raw, OpenText, RawItems, RawMembers;
    var fs := doc.frames;
    if |fs| == 0 {
      assert "" + ("" + Raw(v)) == Raw(v);
    } else if Top(fs).InArray? {
      AttachItemText(Below(fs), Top(fs).items, v);
      Assoc(FrameText(Below(fs)) + Lead(Below(fs)), OpenText(Top(fs)), CommaIf(|Top(fs).items| > 0) + Raw(v));
    } else {
      AttachMemberText(Below(fs), Top(fs).members, Top(fs).key.value, v);
      assert Lead(fs) + Raw(v) == Raw(v);
      Assoc(FrameText(Below(fs)) + Lead(Below(fs)), OpenText(Top(fs)), Raw(v));
    }
  }

  lemma AttachItemText(below: seq<Frame>, items: seq<Value>, v: Value)
    ensures FrameText(below + [InArray(items + [v])])
      == FrameText(below) + Lead(below) + (OpenText(InArray(items)) + (CommaIf(|items| > 0) + Raw(v)))
  {
    hide Raw, FrameText, Lead;
    TextOnTop(below, InArray(items + [v]));
    assert (items + [v])[..|items|] == items;
    Fourfold("[", RawItems(items), CommaIf(|items| > 0), Raw(v));
  }

  lemma Fourfold(a: string, b: string, c: string, d: string)
    ensures a + (b + c + d) == (a + b) + (c + d)
  {}

  lemma AttachMemberText(below: seq<Frame>, members: seq<Member>, key: string, v: Value)
    ensures FrameText(below + [InObject(members + [Member(key, v)], None)])
      == FrameText(below) + Lead(below) + (OpenText(InObject(members, Some(key))) + Raw(v))
  {
    hide Raw, FrameText, Lead, Quote;
    var m := Member(key, v);
    TextOnTop(below, InObject(members + [m], None));
    assert (members + [m])[..|members|] == members;
    MemberJoins(RawMembers(members), CommaIf(|members| > 0), Quote(key) + ":", Raw(v));
  }

  lemma MemberJoins(b: string, c: string, d: string, e: string)
    ensures "{" + (b + c + d + e) + "" == ("{" + b + (c + d)) + e
  {}

  /** A call that fits adds just its own text. */
  lemma StepWritten(doc: Doc, call: Call)
    requires Nested(doc) && Step(doc, call) != Broken
    ensures Written(Step(doc, call)) == Written(doc) + Emitted(doc, call)
  {
    hide FrameText, Lead;
    if call.ObjectStart? {
      TextOnTop(doc.frames, InObject([], None));
      assert OpenText(InObject([], None)) == "{";
      Assoc(FrameText(doc.frames), Lead(doc.frames), "{");
    } else if call.ArrayStart? {
      TextOnTop(doc.frames, InArray([]));
      assert OpenText(InArray([])) == "[";
      Assoc(FrameText(doc.frames), Lead(doc.frames), "[");
    } else if call.ObjectEnd? {
      EndObjectText(doc);
    } else if call.ArrayEnd? {
      EndArrayText(doc);
    } else if call.PutString? && Naming(doc) {
      NameText(doc, call.text);
    } else {
      hide Attach;
      ScalarText(doc, call);
    }
  }

  lemma Assoc(a: string, b: string, c: string)
    ensures a + b + c == a + (b + c)
  {}

  lemma ScalarText(doc: Doc, call: Call)
    requires Step(doc, call) != Broken
    requires call.PutNumber? || call.PutBoolean? || call.PutNull? || (call.PutString? && !Naming(doc))
    ensures Written(Step(doc, call)) == Written(doc) + Emitted(doc, call)
  {
    var v := if call.PutNumber? then Number(call.token) else if call.PutBoolean? then (if call.b then True else False)
             else if call.PutNull? then Null else String(call.text);
    assert Emitted(doc, call) == Lead(doc.frames) + Raw(v);
    hide Attach, Written, Emitted;
    AttachWritten(doc, v);
  }

  lemma NameText(doc: Doc, text: string)
    requires Naming(doc)
    ensures Written(Step(doc, PutString(text))) == Written(doc) + Emitted(doc, PutString(text))
  {
    hide Raw, Lead, RawMembers, Quote, CommaIf;
    var below, members := Below(doc.frames), Top(doc.frames).members;
    TextOnTop(below, InObject(members, Some(text)));
    var e := CommaIf(|members| > 0) + (Quote(text) + ":");
    NameJoins(FrameText(below) + Lead(below), RawMembers(members), e);
  }

  lemma NameJoins(a: string, b: string, e: string)
    ensures a + ("{" + b + e) == a + ("{" + b + "") + e
  {}

  lemma TopText(frames: seq<Frame>)
    requires |frames| > 0
    ensures FrameText(frames) == FrameText(Below(frames)) + Lead(Below(frames)) + OpenText(Top(frames))
  {}

  lemma EndObjectText(doc: Doc)
    requires Nested(doc) && Step(doc, ObjectEnd) != Broken
    ensures Written(Step(doc, ObjectEnd)) == Written(doc) + "}"
  {
    hide Lead, FrameText, RawMembers, Attach;
    var below, members := Below(doc.frames), Top(doc.frames).members;
    AttachWritten(Building(below), Object(members));
    TopText(doc.frames);
    EndJoins(FrameText(below), Lead(below), "{" + RawMembers(members), "}");
    assert "{" + RawMembers(members) + "" == "{" + RawMembers(members);
  }

  lemma EndJoins(a: string, b: string, c: string, d: string)
    ensures a + (b + (c + d)) == (a + b + c) + d
  {}

  lemma EndArrayText(doc: Doc)
    requires Nested(doc) && Step(doc, ArrayEnd) != Broken
    ensures Written(Step(doc, ArrayEnd)) == Written(doc) + "]"
  {
    hide Lead, FrameText, RawItems, Attach;
    var below, items := Below(doc.frames), Top(doc.frames).items;
    AttachWritten(Building(below), Array(items));
    TopText(doc.frames);
    EndJoins(FrameText(below), Lead(below), "[" + RawItems(items), "]");
  }

  /** A string that is written as it is. */
  predicate Plain(s: string) {
    forall i :: 0 <= i < |s| ==> s[i] > '\U{001F}' && s[i] != '\"' && s[i] != '\\'
  }

  predicate PlainStrings(v: Value)
    decreases v
  {
    match v
    case String(text) => Plain(text)
    case Array(items) => forall i :: 0 <= i < |items| ==> PlainStrings(items[i])
    case Object(members) => forall i :: 0 <= i < |members| ==> Plain(members[i].key) && PlainStrings(members[i].value)
    case _ => true
  }

  lemma {:induction false} PlainUnescaped(s: string)
    requires Plain(s)
    ensures Escaped(s) == s && Quoted(s) == Quote(s)
  {
    if |s| > 0 {
      PlainUnescaped(s[1..]);
      assert s == [s[0]] + s[1..];
    }
  }

  lemma {:induction false} ItemsGrow(items: seq<Value>, v: Value, depth: nat)
    ensures Items(items + [v], false, depth)
      == Items(items, false, depth) + CommaIf(|items| > 0) + Text(v, false, depth)
    decreases |items|
  {
    hide Text;
    if |items| == 0 {
      assert items + [v] == [v];
      assert "" + "" + Text(v, false, depth) == Text(v, false, depth);
    } else {
      ItemsGrow(items[1..], v, depth);
      assert (items + [v])[1..] == items[1..] + [v] && (items + [v])[0] == items[0];
      var a, b, c := Text(items[0], false, depth), Items(items[1..], false, depth), Text(v, false, depth);
      if |items| > 1 {
        assert a + "," + (b + "," + c) == (a + "," + b) + "," + c;
      } else {
        assert a + "," + ("" + "" + c) == a + "," + c;
      }
    }
  }

  /** The first member of an unformatted object. */
  lemma FirstMember(members: seq<Member>, depth: nat)
    requires |members| > 0
    ensures Members(members, false, depth)
      == (Quoted(members[0].key) + ":") + Text(members[0].value, false, depth)
         + (CommaIf(|members| > 1) + Members(members[1..], false, depth))
  {
    hide Text, Quoted;
    var k, t, more := Quoted(members[0].key), Text(members[0].value, false, depth), |members| > 1;
    assert Ending(false, more) == CommaIf(more) && Indent(false, depth) == "" && Colon(false) == ":";
    FirstJoins(k, t, CommaIf(more), Members(members[1..], false, depth));
  }

  lemma FirstJoins(k: string, t: string, c: string, m: string)
    ensures "" + k + ":" + t + c + m == (k + ":") + t + (c + m)
  {}

  lemma {:induction false} MembersGrow(members: seq<Member>, m: Member, depth: nat)
    ensures Members(members + [m], false, depth)
      == Members(members, false, depth) + CommaIf(|members| > 0) + (Quoted(m.key) + ":") + Text(m.value, false, depth)
    decreases |members|
  {
    hide Text, Quoted, Members, CommaIf;
    var all := members + [m];
    FirstMember(all, depth);
    NoComma();
    NoMemberText(all[1..], depth);
    NoMemberText(members, depth);
    if |members| > 0 {
      MembersGrow(members[1..], m, depth);
      FirstMember(members, depth);
      NoMemberText(members[1..], depth);
      assert all[1..] == members[1..] + [m] && all[0] == members[0];
      Shift(Quoted(members[0].key) + ":", Text(members[0].value, false, depth), CommaIf(|members| > 1),
            Members(members[1..], false, depth), Quoted(m.key) + ":", Text(m.value, false, depth));
    }
  }

  lemma NoMemberText(members: seq<Member>, depth: nat)
    ensures |members| == 0 ==> Members(members, false, depth) == ""
  {}

  lemma NoComma()
    ensures CommaIf(false) == "" && CommaIf(true) == ","
  {}

  /** The comma after a member is written with it, or before the next one: the same text. */
  lemma Shift(k: string, t: string, comma: string, rest: string, name: string, v: string)
    requires comma == "," || (comma == "" && rest == "")
    ensures k + t + ("," + (rest + comma + name + v)) == (k + t + (comma + rest)) + "," + name + v
  {
    if comma == "" {
      assert rest + comma + name + v == name + v;
      assert comma + rest == "";
    } else {
      assert k + t + ("," + (rest + "," + name + v)) == k + t + ("," + rest) + "," + name + v;
    }
  }

  /** With strings that need no escape the text is the unformatted print. */
  lemma {:induction false} RawIsText(v: Value, depth: nat)
    requires PlainStrings(v)
    ensures Raw(v) == Text(v, false, depth)
    decreases v, 0
  {
    hide Items, Members, RawItems, RawMembers, Quote, Quoted;
    match v
    case String(text) => PlainUnescaped(text);
    case Array(items) => RawIsItems(items, depth + 1);
    case Object(members) =>
      RawIsMembers(members, depth + 1);
      assert Text(v, false, depth) == "{" + Members(members, false, depth + 1) + ("" + "}");
    case _ =>
  }

  lemma {:induction false} RawIsItems(items: seq<Value>, depth: nat)
    requires forall i :: 0 <= i < |items| ==> PlainStrings(items[i])
    ensures RawItems(items) == Items(items, false, depth)
    decreases items, 1
  {
    hide Raw, Text, PlainStrings;
    if |items| > 0 {
      var rest, v := items[..|items| - 1], items[|items| - 1];
      RawIsItems(rest, depth);
      RawIsText(v, depth);
      ItemsGrow(rest, v, depth);
      assert rest + [v] == items;
    }
  }

  lemma {:induction false} RawIsMembers(members: seq<Member>, depth: nat)
    requires forall i :: 0 <= i < |members| ==> Plain(members[i].key) && PlainStrings(members[i].value)
    ensures RawMembers(members) == Members(members, false, depth)
    decreases members, 1
  {
    hide Raw, Text, PlainStrings, Quote, Quoted, Escaped;
    if |members| > 0 {
      var rest, m := members[..|members| - 1], members[|members| - 1];
      RawIsMembers(rest, depth);
      RawIsText(m.value, depth);
      PlainUnescaped(m.key);
      MembersGrow(rest, m, depth);
      assert rest + [m] == members;
    }
  }
}
