/** `Notifier.on_message`: one message from the broker, from its text to the call of
    `notify`, and a run of such messages through one notifier. The JSON parser, Python's
    `str` and the Jinja2 renderer are libraries, passed in as functions. */
module Notifier {
  import opened Optional
  import opened Topics
  import opened Formats
  import opened TopicRegistry
  import opened Pairs
  import opened Payload
  import opened Dispatcher

  /** The variables a template is rendered with. */
  type Vars = map<string, Json>

  /** The libraries the handler calls: `json.loads`, `str` of a parsed object, and
      `jinja2.Template(template).render(**vars)`, which gives `None` when it raises. */
  datatype Libraries = Libraries(
    parse: string -> Parsed,
    show: Json -> string,
    render: (string, Vars) -> Option<string>)

  /** The state of a notifier: its registry (`self.topics`) and its dispatcher state. */
  datatype NotifierState = NotifierState(topics: Registry, dispatcher: State)

  /** A message as it reaches the handler: its topic and its payload decoded to text. */
  datatype Message = Message(topic: string, text: string)

  /** What became of one message: it reached `notify`, or rendering a template raised
      first and the message went no further. */
  datatype Handling =
    | Notified(format: Format, vars: Vars, title: string, body: string, delivery: Delivery)
    | RenderFailed(format: Format, vars: Vars)

  const TopicVar: string := "topic"

  /** The variables `title`, `topic` and `body`. */
  function Variables(topic: string, e: Extracted): (vars: Vars)
    ensures vars.Keys == {TitleKey, TopicVar, BodyKey}
    ensures vars[TitleKey] == e.title && vars[TopicVar] == JString(topic) && vars[BodyKey] == e.body
  {
    map[TitleKey := e.title, TopicVar := JString(topic), BodyKey := e.body]
  }

  /** The variables a message's templates are rendered with, taken from its topic and
      its payload. */
  function MessageVariables(libs: Libraries, msg: Message): Vars {
    Variables(msg.topic, Extract(msg.topic, msg.text, libs.parse(msg.text), libs.show))
  }

  /** The format for a topic: the first matching filter's format merged onto the
      default, or the default alone when no filter matches. */
  function ResolveFormat(reg: Registry, topic: string): (fmt: Format)
    ensures TitleKey in fmt && BodyKey in fmt
    ensures (forall j :: 0 <= j < |reg| ==> !Matches(reg[j].0, topic)) ==> fmt == DefaultFormat
    ensures forall i :: FirstMatch(reg, topic) == Some(i) ==>
              && fmt.Keys == DefaultFormat.Keys + reg[i].1.Keys
              && (forall k :: k in reg[i].1 ==> fmt[k] == reg[i].1[k])
              && (forall k :: k in DefaultFormat && k !in reg[i].1 ==> fmt[k] == DefaultFormat[k])
  {
    Merge(FindFormat(reg, topic).GetOr(map[]))
  }

  /** `on_message` for one message, given the outcomes of the D-Bus calls `notify` may make. */
  function OnMessage(n: NotifierState, libs: Libraries, msg: Message, outcomes: seq<CallOutcome>)
    : (r: (NotifierState, Handling))
    ensures r.0.topics == n.topics
    ensures r.1.format == ResolveFormat(n.topics, msg.topic)
    ensures r.1.vars == MessageVariables(libs, msg)
    ensures r.1.RenderFailed? ==> r.0 == n
    ensures r.1.RenderFailed? <==>
              libs.render(r.1.format[TitleKey], r.1.vars).None? ||
              libs.render(r.1.format[BodyKey], r.1.vars).None?
    ensures r.1.Notified? ==>
              && Some(r.1.title) == libs.render(r.1.format[TitleKey], r.1.vars)
              && Some(r.1.body) == libs.render(r.1.format[BodyKey], r.1.vars)
              && r.1.delivery == Notify(n.dispatcher, outcomes)
              && r.0.dispatcher == r.1.delivery.after
  {
    var fmt := ResolveFormat(n.topics, msg.topic);
    var vars := MessageVariables(libs, msg);
    match libs.render(fmt[TitleKey], vars)
    case None => (n, RenderFailed(fmt, vars))
    case Some(title) =>
      match libs.render(fmt[BodyKey], vars)
      case None => (n, RenderFailed(fmt, vars))
      case Some(body) =>
        var d := Notify(n.dispatcher, outcomes);
        (n.(dispatcher := d.after), Notified(fmt, vars, title, body, d))
  }

  /** Whether the message loop goes no further after this message: a template that
      raised propagates out of the handler and ends the session, and a delivery still
      retrying when the supplied outcomes run out blocks the loop. */
  predicate Halts(h: Handling) {
    h.RenderFailed? || h.delivery.verdict == Pending
  }

  /** How many of the supplied D-Bus outcomes a handling used up. */
  function Used(h: Handling): nat {
    if h.Notified? then h.delivery.consumed else 0
  }

  /** A message handler as the client loop sees it: from the notifier, a message and
      the D-Bus outcomes still to come, the notifier after and what became of the
      message. */
  type Handler = (NotifierState, Message, seq<CallOutcome>) -> (NotifierState, Handling)

  /** A handler never uses more outcomes than it is offered. */
  ghost predicate Bounded(handle: Handler) {
    forall a, m, o :: Used(handle(a, m, o).1) <= |o|
  }

  /** The client loop: messages in arrival order, one at a time, each handling taking
      its D-Bus outcomes from where the previous one stopped, until one halts the loop. */
  function Loop(handle: Handler, n: NotifierState, msgs: seq<Message>, outcomes: seq<CallOutcome>)
    : (r: (NotifierState, seq<Handling>))
    requires Bounded(handle)
    ensures |r.1| <= |msgs|
    decreases |msgs|
  {
    if |msgs| == 0 then (n, [])
    else
      var (next, h) := handle(n, msgs[0], outcomes);
      if Halts(h) then (next, [h])
      else
        var (last, hs) := Loop(handle, next, msgs[1..], outcomes[Used(h)..]);
        (last, [h] + hs)
  }

  /** No handling of the loop but the last one halts it. */
  lemma {:induction false} LoopHaltsOnlyAtEnd(handle: Handler, n: NotifierState, msgs: seq<Message>,
                                              outcomes: seq<CallOutcome>, i: nat)
    requires Bounded(handle)
    requires i + 1 < |Loop(handle, n, msgs, outcomes).1|
    ensures !Halts(Loop(handle, n, msgs, outcomes).1[i])
    decreases i
  {
    var (next, h) := handle(n, msgs[0], outcomes);
    var rest := Loop(handle, next, msgs[1..], outcomes[Used(h)..]);
    assert !Halts(h) && Loop(handle, n, msgs, outcomes).1 == [h] + rest.1;
    if i > 0 {
      LoopHaltsOnlyAtEnd(handle, next, msgs[1..], outcomes[Used(h)..], i - 1);
    }
  }

  /** The loop handles every message unless its last handling halted it. */
  lemma {:induction false} LoopCompletesUnlessHalted(handle: Handler, n: NotifierState, msgs: seq<Message>,
                                                     outcomes: seq<CallOutcome>)
    requires Bounded(handle)
    ensures var r := Loop(handle, n, msgs, outcomes);
      |r.1| == |msgs| || (|r.1| > 0 && Halts(r.1[|r.1| - 1]))
    decreases |msgs|
  {
    if |msgs| > 0 {
      var (next, h) := handle(n, msgs[0], outcomes);
      if !Halts(h) {
        LoopCompletesUnlessHalted(handle, next, msgs[1..], outcomes[Used(h)..]);
        var rest := Loop(handle, next, msgs[1..], outcomes[Used(h)..]);
        var hs := [h] + rest.1;
        assert Loop(handle, n, msgs, outcomes).1 == hs;
        assert |rest.1| > 0 ==> hs[|hs| - 1] == rest.1[|rest.1| - 1];
      }
    }
  }

  /** An invariant of the notifier that every handling keeps holds after the loop. */
  lemma {:induction false} LoopKeeps(handle: Handler, inv: NotifierState -> bool, n: NotifierState,
                                     msgs: seq<Message>, outcomes: seq<CallOutcome>)
    requires Bounded(handle)
    requires forall a, m, o :: inv(a) ==> inv(handle(a, m, o).0)
    requires inv(n)
    ensures inv(Loop(handle, n, msgs, outcomes).0)
    decreases |msgs|
  {
    if |msgs| > 0 {
      var (next, h) := handle(n, msgs[0], outcomes);
      if !Halts(h) {
        LoopKeeps(handle, inv, next, msgs[1..], outcomes[Used(h)..]);
      }
    }
  }

  /** The i-th handling of the loop is what the handler made of the i-th message, in a
      state `a` where the invariant holds and with outcomes `o` on offer. */
  lemma {:induction false} LoopHandles(handle: Handler, inv: NotifierState -> bool, n: NotifierState,
                                       msgs: seq<Message>, outcomes: seq<CallOutcome>, i: nat)
    returns (a: NotifierState, o: seq<CallOutcome>)
    requires Bounded(handle)
    requires forall a, m, o :: inv(a) ==> inv(handle(a, m, o).0)
    requires inv(n)
    requires i < |Loop(handle, n, msgs, outcomes).1|
    ensures i < |msgs|
    ensures inv(a) && Loop(handle, n, msgs, outcomes).1[i] == handle(a, msgs[i], o).1
    decreases i
  {
    var (next, h) := handle(n, msgs[0], outcomes);
    if i == 0 {
      a, o := n, outcomes;
    } else {
      var rest := Loop(handle, next, msgs[1..], outcomes[Used(h)..]);
      assert !Halts(h) && Loop(handle, n, msgs, outcomes).1 == [h] + rest.1;
      a, o := LoopHandles(handle, inv, next, msgs[1..], outcomes[Used(h)..], i - 1);
      assert msgs[1..][i - 1] == msgs[i];
    }
  }

  /** How many D-Bus outcomes a sequence of handlings used up together. */
  function UsedAll(hs: seq<Handling>): nat {
    if |hs| == 0 then 0 else Used(hs[0]) + UsedAll(hs[1..])
  }

  /** Every message after the first is handled in the state the previous handling left,
      which `after` reads off that handling, and with the outcomes the handlings before it
      did not use. */
  lemma {:induction false} LoopThreads(handle: Handler, inv: NotifierState -> bool,
                                       after: Handling -> NotifierState, n: NotifierState,
                                       msgs: seq<Message>, outcomes: seq<CallOutcome>, i: nat)
    requires Bounded(handle)
    requires forall a, m, o :: inv(a) ==> inv(handle(a, m, o).0)
    requires forall a, m, o :: inv(a) && !Halts(handle(a, m, o).1) ==> handle(a, m, o).0 == after(handle(a, m, o).1)
    requires inv(n)
    requires i + 1 < |Loop(handle, n, msgs, outcomes).1|
    ensures i + 1 < |msgs|
    ensures var hs := Loop(handle, n, msgs, outcomes).1;
      && UsedAll(hs[..i + 1]) <= |outcomes|
      && hs[i + 1] == handle(after(hs[i]), msgs[i + 1], outcomes[UsedAll(hs[..i + 1])..]).1
    decreases i
  {
    var (next, h) := handle(n, msgs[0], outcomes);
    var rest := Loop(handle, next, msgs[1..], outcomes[Used(h)..]);
    var hs := Loop(handle, n, msgs, outcomes).1;
    assert !Halts(h) && hs == [h] + rest.1;
    assert hs[..i + 1] == [h] + rest.1[..i];
    assert ([h] + rest.1[..i])[1..] == rest.1[..i];
    if i == 0 {
      assert msgs[1..][0] == msgs[1];
    } else {
      LoopThreads(handle, inv, after, next, msgs[1..], outcomes[Used(h)..], i - 1);
      assert outcomes[Used(h)..][UsedAll(rest.1[..i])..] == outcomes[UsedAll(hs[..i + 1])..];
      assert msgs[1..][i] == msgs[i + 1];
    }
  }

  /** `on_message` as the client loop calls it. */
  function Handle(libs: Libraries): (handle: Handler)
    ensures Bounded(handle)
  {
    var handle := (a: NotifierState, m: Message, o: seq<CallOutcome>) => OnMessage(a, libs, m, o);
    assert forall a, m, o :: handle(a, m, o) == OnMessage(a, libs, m, o);
    handle
  }

  /** What a notifier's handling of a message leaves alone: its registry and its
      test flag. */
  predicate SameSetup(a: NotifierState, n: NotifierState) {
    a.topics == n.topics && a.dispatcher.test == n.dispatcher.test
  }

  /** The notifier's messages through the client loop with `on_message` as handler. */
  function Run(n: NotifierState, libs: Libraries, msgs: seq<Message>, outcomes: seq<CallOutcome>)
    : (r: (NotifierState, seq<Handling>))
    ensures |r.1| <= |msgs|
    ensures r.0.topics == n.topics
    ensures r.0.dispatcher.test == n.dispatcher.test
  {
    var handle := Handle(libs);
    LoopKeeps(handle, a => SameSetup(a, n), n, msgs, outcomes);
    Loop(handle, n, msgs, outcomes)
  }

  /** A run goes on while messages do not halt it: no handling but the last one halts. */
  lemma RunHaltsOnlyAtEnd(n: NotifierState, libs: Libraries, msgs: seq<Message>,
                          outcomes: seq<CallOutcome>, i: nat)
    requires i + 1 < |Run(n, libs, msgs, outcomes).1|
    ensures !Halts(Run(n, libs, msgs, outcomes).1[i])
  {
    LoopHaltsOnlyAtEnd(Handle(libs), n, msgs, outcomes, i);
  }

  /** A run handles every message unless its last handling halted it. */
  lemma RunCompletesUnlessHalted(n: NotifierState, libs: Libraries, msgs: seq<Message>,
                                 outcomes: seq<CallOutcome>)
    ensures var r := Run(n, libs, msgs, outcomes);
      |r.1| == |msgs| || (|r.1| > 0 && Halts(r.1[|r.1| - 1]))
  {
    LoopCompletesUnlessHalted(Handle(libs), n, msgs, outcomes);
  }

  /** The first handling of a run is exactly what `on_message` makes of the first
      message, given the notifier and all the outcomes. */
  lemma RunStartsWithFirstMessage(n: NotifierState, libs: Libraries, msgs: seq<Message>,
                                  outcomes: seq<CallOutcome>)
    requires |msgs| > 0
    ensures var r := Run(n, libs, msgs, outcomes);
      |r.1| > 0 && r.1[0] == OnMessage(n, libs, msgs[0], outcomes).1
  {
    assert Loop(Handle(libs), n, msgs, outcomes).1[0] == Handle(libs)(n, msgs[0], outcomes).1;
  }

  /** The i-th handling of a run belongs to the i-th message: its format is the one
      resolved for that message's topic and its variables are those of that message. */
  lemma RunHandlesInOrder(n: NotifierState, libs: Libraries, msgs: seq<Message>,
                          outcomes: seq<CallOutcome>, i: nat)
    requires i < |Run(n, libs, msgs, outcomes).1|
    ensures var h := Run(n, libs, msgs, outcomes).1[i];
      && i < |msgs|
      && h.format == ResolveFormat(n.topics, msgs[i].topic)
      && h.vars == MessageVariables(libs, msgs[i])
  {
    var handle := Handle(libs);
    var inv := (a: NotifierState) => a.topics == n.topics;
    var a, o := LoopHandles(handle, inv, n, msgs, outcomes, i);
  }

  /** A run carries the notifier's state from message to message: every message after
      the first is handled in the dispatcher state the previous delivery left (its
      back-off, grown or reset), and with the D-Bus outcomes earlier deliveries did not
      use. */
  lemma RunThreadsState(n: NotifierState, libs: Libraries, msgs: seq<Message>,
                        outcomes: seq<CallOutcome>, i: nat)
    requires i + 1 < |Run(n, libs, msgs, outcomes).1|
    ensures var hs := Run(n, libs, msgs, outcomes).1;
      && i + 1 < |msgs|
      && hs[i].Notified?
      && UsedAll(hs[..i + 1]) <= |outcomes|
      && hs[i + 1] == OnMessage(NotifierState(n.topics, hs[i].delivery.after), libs, msgs[i + 1],
                                outcomes[UsedAll(hs[..i + 1])..]).1
  {
    var handle := Handle(libs);
    var inv := (a: NotifierState) => a.topics == n.topics;
    var after := (h: Handling) => if h.Notified? then NotifierState(n.topics, h.delivery.after) else n;
    forall a, m, o | inv(a) && !Halts(handle(a, m, o).1)
      ensures handle(a, m, o).0 == after(handle(a, m, o).1)
    {
      assert handle(a, m, o) == OnMessage(a, libs, m, o);
    }
    LoopThreads(handle, inv, after, n, msgs, outcomes, i);
    LoopHaltsOnlyAtEnd(handle, n, msgs, outcomes, i);
  }

  /** Over any run, the back-off stays within [0, 300] and so does every sleep. */
  lemma RunKeepsBackOffValid(n: NotifierState, libs: Libraries, msgs: seq<Message>,
                             outcomes: seq<CallOutcome>)
    requires ValidBackOff(n.dispatcher.backOff)
    ensures var r := Run(n, libs, msgs, outcomes);
      && ValidBackOff(r.0.dispatcher.backOff)
      && forall i, j :: 0 <= i < |r.1| && r.1[i].Notified? && 0 <= j < |r.1[i].delivery.sleeps| ==>
           0.0 <= r.1[i].delivery.sleeps[j] <= Cutoff
  {
    var handle := Handle(libs);
    var inv := (a: NotifierState) => ValidBackOff(a.dispatcher.backOff);
    forall a, m, o | inv(a)
      ensures inv(handle(a, m, o).0)
    {
      NotifyKeepsBackOffValid(a.dispatcher, o);
    }
    LoopKeeps(handle, inv, n, msgs, outcomes);
    var r := Loop(handle, n, msgs, outcomes);
    forall i, j | 0 <= i < |r.1| && r.1[i].Notified? && 0 <= j < |r.1[i].delivery.sleeps|
      ensures 0.0 <= r.1[i].delivery.sleeps[j] <= Cutoff
    {
      var a, o := LoopHandles(handle, inv, n, msgs, outcomes, i);
      NotifyKeepsBackOffValid(a.dispatcher, o);
    }
  }

  /** In test mode one message leaves the notifier as it was, and reaching `notify`
      skips the delivery without a D-Bus call. */
  lemma TestModeMessage(n: NotifierState, libs: Libraries, msg: Message, outcomes: seq<CallOutcome>)
    requires n.dispatcher.test
    ensures var r := OnMessage(n, libs, msg, outcomes);
      && r.0 == n
      && (r.1.Notified? ==> r.1.delivery == Delivery(Skipped, [], n.dispatcher, 0))
  {
  }

  /** In test mode a run makes no D-Bus call and leaves the notifier as it was: every
      message that reaches `notify` is skipped, and only a template that raises stops
      the run early. */
  lemma TestModeRun(n: NotifierState, libs: Libraries, msgs: seq<Message>, outcomes: seq<CallOutcome>)
    requires n.dispatcher.test
    ensures var r := Run(n, libs, msgs, outcomes);
      && r.0 == n
      && (|r.1| == |msgs| || (|r.1| > 0 && r.1[|r.1| - 1].RenderFailed?))
      && forall i :: 0 <= i < |r.1| && r.1[i].Notified? ==>
           r.1[i].delivery == Delivery(Skipped, [], n.dispatcher, 0)
  {
    var handle := Handle(libs);
    var inv := (a: NotifierState) => a == n;
    forall a, m, o | inv(a)
      ensures inv(handle(a, m, o).0)
    {
      TestModeMessage(n, libs, m, o);
    }
    LoopKeeps(handle, inv, n, msgs, outcomes);
    var r := Loop(handle, n, msgs, outcomes);
    forall i | 0 <= i < |r.1|
      ensures r.1[i].Notified? ==> r.1[i].delivery == Delivery(Skipped, [], n.dispatcher, 0)
    {
      var a, o := LoopHandles(handle, inv, n, msgs, outcomes, i);
      TestModeMessage(n, libs, msgs[i], o);
    }
    LoopCompletesUnlessHalted(handle, n, msgs, outcomes);
  }

  /** A topic no filter matches is rendered with the default templates "{{title}}" and
      "{{body}}". */
  lemma UnmatchedTopicUsesDefault(n: NotifierState, libs: Libraries, msg: Message, outcomes: seq<CallOutcome>)
    requires forall j :: 0 <= j < |n.topics| ==> !Matches(n.topics[j].0, msg.topic)
    ensures var h := OnMessage(n, libs, msg, outcomes).1;
      h.format[TitleKey] == "{{title}}" && h.format[BodyKey] == "{{body}}"
  {
  }

  /** Topic "sensors/temp" under the filter "sensors/+" with title "Temp: {{topic}}" and
      the payload {"message": "21C"}: the title template is the filter's, the body
      template the default's, and the variables carry the topic as title and "21C" as
      body. */
  lemma SensorScenario(filter: string, topic: string, libs: Libraries, text: string,
                       test: bool, outcomes: seq<CallOutcome>)
    requires filter == "sensors/+" && topic == "sensors/temp"
    requires libs.parse(text) == Value(JObject([(MessageField, JString("21C"))]))
    ensures var n := NotifierState([(filter, map[TitleKey := "Temp: {{topic}}"])], State(test, InitialBackOff));
      var h := OnMessage(n, libs, Message(topic, text), outcomes).1;
      && h.format == map[TitleKey := "Temp: {{topic}}", BodyKey := "{{body}}"]
      && h.vars == map[TitleKey := JString(topic), TopicVar := JString(topic), BodyKey := JString("21C")]
  {
    SensorFormat(filter, topic);
    SensorVariables(topic, libs, text);
  }

  /** The format of the sensors scenario: the filter's title over the default body. */
  lemma SensorFormat(filter: string, topic: string)
    requires filter == "sensors/+" && topic == "sensors/temp"
    ensures ResolveFormat([(filter, map[TitleKey := "Temp: {{topic}}"])], topic)
         == map[TitleKey := "Temp: {{topic}}", BodyKey := "{{body}}"]
  {
    LevelsOf(filter, ["sensors", "+"]);
    LevelsOf(topic, ["sensors", "temp"]);
    assert Matches(filter, topic);
    var own := map[TitleKey := "Temp: {{topic}}"];
    assert FindFormat([(filter, own)], topic) == Some(own);
    assert Merge(own) == map[TitleKey := "Temp: {{topic}}", BodyKey := "{{body}}"];
  }

  /** The variables of the sensors scenario: the topic as title, the "message" field as
      body. */
  lemma SensorVariables(topic: string, libs: Libraries, text: string)
    requires libs.parse(text) == Value(JObject([(MessageField, JString("21C"))]))
    ensures MessageVariables(libs, Message(topic, text))
         == map[TitleKey := JString(topic), TopicVar := JString(topic), BodyKey := JString("21C")]
  {
    var fields := [(MessageField, JString("21C"))];
    assert Keys(fields) == [MessageField] && TitleField !in Keys(fields);
    var e := Extract(topic, text, libs.parse(text), libs.show);
    assert e == Extracted(JString(topic), JString("21C"));
  }

  /** Topic "alerts/critical" under "alerts/#" with the payload "not json": the title is
      the topic and the body the payload text. */
  lemma AlertScenario(filter: string, topic: string, libs: Libraries, fmt: Format,
                      test: bool, outcomes: seq<CallOutcome>)
    requires filter == "alerts/#" && topic == "alerts/critical"
    requires libs.parse("not json") == Invalid
    ensures var n := NotifierState([(filter, fmt)], State(test, InitialBackOff));
      var h := OnMessage(n, libs, Message(topic, "not json"), outcomes).1;
      && h.format == Merge(fmt)
      && h.vars == map[TitleKey := JString(topic), TopicVar := JString(topic), BodyKey := JString("not json")]
  {
    LevelsOf(filter, ["alerts", "#"]);
    LevelsOf(topic, ["alerts", "critical"]);
    assert Matches(filter, topic);
  }
}
