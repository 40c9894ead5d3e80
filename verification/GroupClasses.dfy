/** The Java generator's sharing of group classes: a stack of open groups and a table
    that gives every distinct group structure one class. */
module GroupClasses {
  import opened Decimal

  type text = seq<byte>

  const UNDERSCORE: byte := 95

  /** A repeating group of the specification, with its nested groups. */
  datatype Group = Group(name: text, number: text, delim: Option<text>, order: seq<text>, children: seq<Group>)

  /** What the processor tells the generator. */
  datatype Event =
    | MessageStart(name: text)
    | GroupStart(name: text, number: text, delim: Option<text>, order: seq<text>)
    | GroupEnd
    | MessageEnd

  /** A group nested in a frame: its name and its class. */
  datatype Child = Child(name: text, className: text)

  datatype Frame = Frame(name: text, number: text, delim: Option<text>, order: seq<text>, children: seq<Child>)

  /** @groupNames, whose default is 0. */
  function CountOf(names: map<text, nat>, name: text): nat {
    if name in names then names[name] else 0
  }

  function ClassName(name: text, count: nat): text {
    if count == 1 then name else name + [UNDERSCORE] + Digits(count)
  }

  /** A popped frame is the key of the table @groupClasses. */
  type Table = map<Frame, text>

  datatype State = State(
    started: bool, frames: seq<Frame>, classes: Table, names: map<text, nat>, written: seq<text>)

  const INITIAL := State(false, [], map[], map[], [])

  // ----- the generator on values

  function Push(s: State, f: Frame): State {
    s.(frames := s.frames + [f])
  }

  /** The table lookup of groupEnd, with its class when there is none yet. */
  function Assign(s: State, key: Frame): State {
    if key in s.classes then s else
      var count := CountOf(s.names, key.name) + 1;
      var className := ClassName(key.name, count);
      s.(classes := s.classes[key := className],
         names := s.names[key.name := count],
         written := s.written + [className])
  }

  function AddChild(s: State, c: Child): State
    requires s.frames != []
  {
    var last := s.frames[|s.frames| - 1];
    s.(frames := s.frames[..|s.frames| - 1] + [last.(children := last.children + [c])])
  }

  function EndGroup(s: State): State
    requires |s.frames| >= 2
  {
    var key := s.frames[|s.frames| - 1];
    var named := Assign(s.(frames := s.frames[..|s.frames| - 1]), key);
    AddChild(named, Child(key.name, named.classes[key]))
  }

  /** The stream never ends a group that is not open within a message. */
  predicate Accepts(s: State, e: Event) {
    match e
    case GroupEnd => s.started ==> |s.frames| >= 2
    case MessageEnd => |s.frames| >= 1
    case _ => true
  }

  function Step(s: State, e: Event): State
    requires Accepts(s, e)
  {
    match e
    case MessageStart(name) => s.(started := true, frames := [Frame(name, [], None, [], [])])
    case GroupStart(name, number, delim, order) =>
      if s.started then Push(s, Frame(name, number, delim, order, [])) else s
    case GroupEnd => if s.started then EndGroup(s) else s
    case MessageEnd => s.(started := false, frames := s.frames[..|s.frames| - 1])
  }

  // ----- the generator as a class

  class Generator {
    var messageStarted: bool
    var frames: seq<Frame>
    var groupClasses: Table
    var groupNames: map<text, nat>
    var written: seq<text>

    function Now(): State
      reads this
    {
      State(messageStarted, frames, groupClasses, groupNames, written)
    }

    constructor ()
      ensures Now() == INITIAL
    {
      messageStarted, frames, groupClasses, groupNames, written := false, [], map[], map[], [];
    }

    method MessageStarts(name: text)
      modifies this
      ensures Now() == Step(old(Now()), MessageStart(name))
    {
      messageStarted := true;
      frames := [Frame(name, [], None, [], [])];
    }

    method GroupStarts(name: text, number: text, delim: Option<text>, order: seq<text>)
      modifies this
      ensures Now() == Step(old(Now()), GroupStart(name, number, delim, order))
    {
      if !messageStarted {
        return;
      }
      frames := frames + [Frame(name, number, delim, order, [])];
    }

    method GroupEnds()
      requires Accepts(Now(), GroupEnd)
      modifies this
      ensures Now() == Step(old(Now()), GroupEnd)
    {
      if !messageStarted {
        return;
      }
      var frame := frames[|frames| - 1];
      frames := frames[..|frames| - 1];
      var className;
      if frame in groupClasses {
        className := groupClasses[frame];
      } else {
        var count := CountOf(groupNames, frame.name) + 1;
        groupNames := groupNames[frame.name := count];
        className := if count == 1 then frame.name else frame.name + [UNDERSCORE] + Digits(count);
        groupClasses := groupClasses[frame := className];
        written := written + [className];
      }
      var last := frames[|frames| - 1];
      frames := frames[..|frames| - 1] + [last.(children := last.children + [Child(frame.name, className)])];
    }

    method MessageEnds()
      requires Accepts(Now(), MessageEnd)
      modifies this
      ensures Now() == Step(old(Now()), MessageEnd)
    {
      frames := frames[..|frames| - 1];
      messageStarted := false;
    }
  }

  // ----- well-nested streams

  function GroupEvents(g: Group): seq<Event>
    decreases g, 1
  {
    [GroupStart(g.name, g.number, g.delim, g.order)] + AllEvents(g.children) + [GroupEnd]
  }

  function AllEvents(gs: seq<Group>): seq<Event>
    decreases gs, 0
  {
    if gs == [] then [] else GroupEvents(gs[0]) + AllEvents(gs[1..])
  }

  ghost predicate CanRun(s: State, events: seq<Event>)
    decreases |events|
  {
    events != [] ==> Accepts(s, events[0]) && CanRun(Step(s, events[0]), events[1..])
  }

  ghost function Run(s: State, events: seq<Event>): State
    requires CanRun(s, events)
    decreases |events|
  {
    if events == [] then s else Run(Step(s, events[0]), events[1..])
  }

  lemma {:induction false} RunConcat(s: State, e1: seq<Event>, e2: seq<Event>)
    requires CanRun(s, e1) && CanRun(Run(s, e1), e2)
    ensures CanRun(s, e1 + e2) && Run(s, e1 + e2) == Run(Run(s, e1), e2)
    decreases |e1|
  {
    if e1 == [] {
      assert e1 + e2 == e2;
    } else {
      assert (e1 + e2)[1..] == e1[1..] + e2;
      RunConcat(Step(s, e1[0]), e1[1..], e2);
    }
  }

  // ----- the class that a structure has in a table

  /** The class of a group structure, if the table has it and everything nested in it. */
  function ClassOf(classes: Table, g: Group): Option<text>
    decreases g, 1
  {
    match ChildrenOf(classes, g.children)
    case None => None
    case Some(cs) =>
      var key := Frame(g.name, g.number, g.delim, g.order, cs);
      if key in classes then Some(classes[key]) else None
  }

  function ChildrenOf(classes: Table, gs: seq<Group>): (r: Option<seq<Child>>)
    ensures r.Some? ==> |r.value| == |gs|
    decreases gs, 0
  {
    if gs == [] then Some([]) else
      match (ClassOf(classes, gs[0]), ChildrenOf(classes, gs[1..]))
      case (Some(c), Some(cs)) => Some([Child(gs[0].name, c)] + cs)
      case _ => None
  }

  ghost predicate Extends(m: Table, n: Table) {
    forall k :: k in m ==> k in n && n[k] == m[k]
  }

  /** A class once given is never changed. */
  lemma {:induction false} ClassStays(m: map<Frame, text>, n: Table, g: Group)
    requires Extends(m, n) && ClassOf(m, g).Some?
    ensures ClassOf(n, g) == ClassOf(m, g)
    decreases g, 1
  {
    ChildrenStay(m, n, g.children);
  }

  lemma {:induction false} ChildrenStay(m: Table, n: Table, gs: seq<Group>)
    requires Extends(m, n) && ChildrenOf(m, gs).Some?
    ensures ChildrenOf(n, gs) == ChildrenOf(m, gs)
    decreases gs, 0
  {
    if gs != [] {
      ClassStays(m, n, gs[0]);
      ChildrenStay(m, n, gs[1..]);
    }
  }

  ghost predicate Injective(m: Table) {
    forall k, l :: k in m && l in m && m[k] == m[l] ==> k == l
  }

  /** With no class name used twice, equal classes mean equal structures all the way down. */
  lemma {:induction false} SameClassSameGroup(m: Table, g: Group, h: Group)
    requires Injective(m) && ClassOf(m, g).Some? && ClassOf(m, g) == ClassOf(m, h)
    ensures g == h
    decreases g, 1
  {
    SameChildrenSameGroups(m, g.children, h.children);
  }

  lemma {:induction false} SameChildrenSameGroups(m: Table, gs: seq<Group>, hs: seq<Group>)
    requires Injective(m) && ChildrenOf(m, gs).Some? && ChildrenOf(m, gs) == ChildrenOf(m, hs)
    ensures gs == hs
    decreases gs, 0
  {
    if gs != [] {
      var cs, ds := ChildrenOf(m, gs).value, ChildrenOf(m, hs).value;
      assert cs[0] == ds[0] && cs[1..] == ds[1..];
      SameClassSameGroup(m, gs[0], hs[0]);
      SameChildrenSameGroups(m, gs[1..], hs[1..]);
      assert gs == [gs[0]] + gs[1..] && hs == [hs[0]] + hs[1..];
    }
  }

  // ----- what a stream does to the table

  lemma AssignGrows(s: State, key: Frame)
    ensures var r := Assign(s, key);
      Extends(s.classes, r.classes) && key in r.classes && r.frames == s.frames && r.started == s.started
  {
  }

  /** Ending a group whose frame is on top of the stack, with all its nested groups. */
  lemma EndsGroup(s: State, g: Group)
    requires s.started && |s.frames| >= 2 && ChildrenOf(s.classes, g.children).Some?
    requires s.frames[|s.frames| - 1]
          == Frame(g.name, g.number, g.delim, g.order, ChildrenOf(s.classes, g.children).value)
    ensures
      var r, rest := EndGroup(s), s.(frames := s.frames[..|s.frames| - 1]);
      && r.started && Extends(s.classes, r.classes) && ClassOf(r.classes, g).Some?
      && r.frames == AddChild(rest, Child(g.name, ClassOf(r.classes, g).value)).frames
  {
    var key := s.frames[|s.frames| - 1];
    AssignGrows(s.(frames := s.frames[..|s.frames| - 1]), key);
    ChildrenStay(s.classes, EndGroup(s).classes, g.children);
  }

  lemma RunThree(s: State, e1: Event, es: seq<Event>, e3: Event)
    requires Accepts(s, e1) && CanRun(Step(s, e1), es) && Accepts(Run(Step(s, e1), es), e3)
    ensures CanRun(s, [e1] + es + [e3]) && Run(s, [e1] + es + [e3]) == Step(Run(Step(s, e1), es), e3)
  {
    RunOne(s, e1);
    RunOne(Run(Step(s, e1), es), e3);
    RunConcat(s, [e1], es);
    RunConcat(s, [e1] + es, [e3]);
  }

  /** The effect of one group: the stack is as before, but for the group's name and class
      among the children of the frame on top. */
  lemma {:induction false} GroupRuns(s: State, g: Group)
    requires s.started && s.frames != []
    ensures CanRun(s, GroupEvents(g))
    ensures
      var r := Run(s, GroupEvents(g));
      && r.started && Extends(s.classes, r.classes) && ClassOf(r.classes, g).Some?
      && r.frames == AddChild(s, Child(g.name, ClassOf(r.classes, g).value)).frames
    decreases g, 1
  {
    var start := GroupStart(g.name, g.number, g.delim, g.order);
    var s1 := Step(s, start);
    AllRun(s1, g.children);
    var s2 := Run(s1, AllEvents(g.children));
    assert s2.frames[..|s2.frames| - 1] == s.frames;
    assert [] + ChildrenOf(s2.classes, g.children).value == ChildrenOf(s2.classes, g.children).value;
    EndsGroup(s2, g);
    RunThree(s, start, AllEvents(g.children), GroupEnd);
  }

  lemma RunOne(s: State, e: Event)
    requires Accepts(s, e)
    ensures CanRun(s, [e]) && Run(s, [e]) == Step(s, e)
  {
    assert Run(Step(s, e), []) == Step(s, e);
  }

  lemma {:induction false} AllRun(s: State, gs: seq<Group>)
    requires s.started && s.frames != []
    ensures CanRun(s, AllEvents(gs))
    ensures
      var r := Run(s, AllEvents(gs));
      && r.started && Extends(s.classes, r.classes) && ChildrenOf(r.classes, gs).Some?
      && r.frames == Gained(s.frames, ChildrenOf(r.classes, gs).value)
    decreases gs, 0
  {
    if gs != [] {
      GroupRuns(s, gs[0]);
      var s1 := Run(s, GroupEvents(gs[0]));
      AllRun(s1, gs[1..]);
      StepGains(s, s1, Run(s1, AllEvents(gs[1..])), gs);
      RunConcat(s, GroupEvents(gs[0]), AllEvents(gs[1..]));
    } else {
      GainedNone(s.frames);
    }
  }

  lemma {:induction false} StepGains(s: State, s1: State, r: State, gs: seq<Group>)
    requires s.frames != [] && gs != [] && Extends(s.classes, s1.classes) && ClassOf(s1.classes, gs[0]).Some?
    requires s1.frames == AddChild(s, Child(gs[0].name, ClassOf(s1.classes, gs[0]).value)).frames
    requires Extends(s1.classes, r.classes) && ChildrenOf(r.classes, gs[1..]).Some?
    requires r.frames == Gained(s1.frames, ChildrenOf(r.classes, gs[1..]).value)
    ensures Extends(s.classes, r.classes) && ChildrenOf(r.classes, gs).Some?
    ensures r.frames == Gained(s.frames, ChildrenOf(r.classes, gs).value)
  {
    ClassStays(s1.classes, r.classes, gs[0]);
    GainedThen(s, Child(gs[0].name, ClassOf(r.classes, gs[0]).value), ChildrenOf(r.classes, gs[1..]).value);
  }

  /** The frame on top has more children. */
  function Gained(frames: seq<Frame>, cs: seq<Child>): seq<Frame>
    requires frames != []
  {
    var last := frames[|frames| - 1];
    frames[..|frames| - 1] + [last.(children := last.children + cs)]
  }

  lemma GainedNone(frames: seq<Frame>)
    requires frames != []
    ensures Gained(frames, []) == frames
  {
    var last := frames[|frames| - 1];
    assert last.children + [] == last.children;
  }

  lemma GainedThen(s: State, c: Child, cs: seq<Child>)
    requires s.frames != []
    ensures Gained(AddChild(s, c).frames, cs) == Gained(s.frames, [c] + cs)
  {
    var last := s.frames[|s.frames| - 1];
    assert last.children + [c] + cs == last.children + ([c] + cs);
  }

  // ----- no class name is used twice

  /** No name is another one followed by the suffix of a shared class. */
  ghost predicate Safe(names: set<text>) {
    forall n, m, k: nat :: n in names && m in names && k >= 2 ==> n != ClassName(m, k)
  }

  /** Digits hold no underscore, so the last underscore of a class name ends its group's name. */
  lemma {:induction false} SuffixUnique(n: text, i: nat, m: text, j: nat)
    requires n + [UNDERSCORE] + Digits(i) == m + [UNDERSCORE] + Digits(j)
    ensures n == m && i == j
  {
    var a, b := n + [UNDERSCORE] + Digits(i), m + [UNDERSCORE] + Digits(j);
    assert a[|n|] == UNDERSCORE && b[|m|] == UNDERSCORE;
    assert forall k :: |n| < k < |a| ==> a[k] == Digits(i)[k - |n| - 1];
    assert forall k :: |m| < k < |b| ==> b[k] == Digits(j)[k - |m| - 1];
    assert n == a[..|n|] && m == b[..|m|];
    assert Digits(i) == a[|n| + 1..] && Digits(j) == b[|m| + 1..];
    ValueOfDigits(i);
    ValueOfDigits(j);
  }

  lemma ClassNameUnique(names: set<text>, n: text, i: nat, m: text, j: nat)
    requires Safe(names) && n in names && m in names && i >= 1 && j >= 1 && ClassName(n, i) == ClassName(m, j)
    ensures n == m && i == j
  {
    if i >= 2 && j >= 2 {
      SuffixUnique(n, i, m, j);
    }
  }

  ghost predicate Numbered(m: Table, counts: map<text, nat>, key: Frame)
    requires key in m
  {
    exists i: nat :: 1 <= i <= CountOf(counts, key.name) && m[key] == ClassName(key.name, i)
  }

  ghost predicate TidyTable(m: Table, counts: map<text, nat>, names: set<text>) {
    && (forall k :: k in m ==> k.name in names && Numbered(m, counts, k))
    && Injective(m)
  }

  /** Some structure of the name has the number. */
  ghost predicate Given(m: Table, name: text, i: nat) {
    exists key :: key in m && key.name == name && m[key] == ClassName(name, i)
  }

  /** The numbers of a name go from 1 to its count without a gap. */
  ghost predicate NoGaps(m: Table, counts: map<text, nat>) {
    forall name, i: nat :: name in counts && 1 <= i <= counts[name] ==> Given(m, name, i)
  }

  /** No generated file overwrites another. */
  ghost predicate TidyFiles(m: Table, written: seq<text>) {
    && (forall i, j :: 0 <= i < j < |written| ==> written[i] != written[j])
    && (forall w :: w in written ==> w in m.Values)
  }

  ghost predicate Tidy(s: State, names: set<text>) {
    && (forall i :: 1 <= i < |s.frames| ==> s.frames[i].name in names)
    && (s.started ==> s.frames != [])
    && TidyTable(s.classes, s.names, names) && NoGaps(s.classes, s.names) && TidyFiles(s.classes, s.written)
  }

  lemma FreshName(m: Table, counts: map<text, nat>, name: text, names: set<text>)
    requires TidyTable(m, counts, names) && Safe(names) && name in names
    ensures ClassName(name, CountOf(counts, name) + 1) !in m.Values
  {
    var className := ClassName(name, CountOf(counts, name) + 1);
    forall k | k in m
      ensures m[k] != className
    {
      var i: nat :| 1 <= i <= CountOf(counts, k.name) && m[k] == ClassName(k.name, i);
      if m[k] == className {
        ClassNameUnique(names, k.name, i, name, CountOf(counts, name) + 1);
      }
    }
  }

  lemma AddTidyTable(m: Table, counts: map<text, nat>, key: Frame, names: set<text>)
    requires TidyTable(m, counts, names) && Safe(names) && key.name in names && key !in m
    ensures
      var count := CountOf(counts, key.name) + 1;
      TidyTable(m[key := ClassName(key.name, count)], counts[key.name := count], names)
  {
    FreshName(m, counts, key.name, names);
    var count := CountOf(counts, key.name) + 1;
    var n, after := m[key := ClassName(key.name, count)], counts[key.name := count];
    StillInjective(m, key, ClassName(key.name, count));
    StillNumbered(m, n, counts, after);
    assert 1 <= count <= CountOf(after, key.name) && n[key] == ClassName(key.name, count);
  }

  lemma StillInjective(m: Table, key: Frame, className: text)
    requires Injective(m) && className !in m.Values && key !in m
    ensures Injective(m[key := className])
  {
    assert forall k :: k in m ==> m[k] in m.Values;
  }

  lemma StillNumbered(m: Table, n: Table, counts: map<text, nat>, after: map<text, nat>)
    requires forall k :: k in m ==> k in n && n[k] == m[k] && Numbered(m, counts, k)
    requires forall name :: CountOf(counts, name) <= CountOf(after, name)
    ensures forall k :: k in m ==> Numbered(n, after, k)
  {
    forall k | k in m
      ensures Numbered(n, after, k)
    {
      var i: nat :| 1 <= i <= CountOf(counts, k.name) && m[k] == ClassName(k.name, i);
      assert 1 <= i <= CountOf(after, k.name) && n[k] == ClassName(k.name, i);
    }
  }

  lemma AddNoGaps(m: Table, counts: map<text, nat>, key: Frame)
    requires NoGaps(m, counts) && key !in m
    ensures
      var count := CountOf(counts, key.name) + 1;
      NoGaps(m[key := ClassName(key.name, count)], counts[key.name := count])
  {
    var count := CountOf(counts, key.name) + 1;
    var n, after := m[key := ClassName(key.name, count)], counts[key.name := count];
    forall name, i: nat | name in after && 1 <= i <= after[name]
      ensures Given(n, name, i)
    {
      if name == key.name && i == count {
        assert n[key] == ClassName(name, i);
      } else {
        assert Given(m, name, i);
        var k :| k in m && k.name == name && m[k] == ClassName(name, i);
        assert k in n && n[k] == ClassName(name, i);
      }
    }
  }

  lemma AddTidyFiles(m: Table, key: Frame, className: text, written: seq<text>)
    requires TidyFiles(m, written) && key !in m && className !in m.Values
    ensures TidyFiles(m[key := className], written + [className])
  {
    var n := m[key := className];
    assert key in n.Keys && n[key] == className;
    forall w | w in written
      ensures w in n.Values && w != className
    {
      var k :| k in m && m[k] == w;
      assert k in n && n[k] == w;
    }
  }

  lemma AssignTidy(s: State, key: Frame, names: set<text>)
    requires Tidy(s, names) && Safe(names) && key.name in names
    ensures Tidy(Assign(s, key), names)
  {
    if key !in s.classes {
      FreshName(s.classes, s.names, key.name, names);
      AddTidyTable(s.classes, s.names, key, names);
      AddNoGaps(s.classes, s.names, key);
      AddTidyFiles(s.classes, key, ClassName(key.name, CountOf(s.names, key.name) + 1), s.written);
    }
  }

  ghost predicate NamesIn(events: seq<Event>, names: set<text>) {
    forall e :: e in events && e.GroupStart? ==> e.name in names
  }

  lemma EndTidy(s: State, names: set<text>)
    requires Tidy(s, names) && Safe(names) && |s.frames| >= 2
    ensures Tidy(EndGroup(s), names)
  {
    var key := s.frames[|s.frames| - 1];
    var popped := s.(frames := s.frames[..|s.frames| - 1]);
    PopTidy(s, names);
    AssignTidy(popped, key, names);
    ChildTidy(Assign(popped, key), Child(key.name, Assign(popped, key).classes[key]), names);
  }

  lemma PopTidy(s: State, names: set<text>)
    requires Tidy(s, names) && |s.frames| >= 2
    ensures Tidy(s.(frames := s.frames[..|s.frames| - 1]), names) && s.frames[|s.frames| - 1].name in names
  {
  }

  lemma ChildTidy(s: State, c: Child, names: set<text>)
    requires Tidy(s, names) && s.frames != []
    ensures Tidy(AddChild(s, c), names)
  {
  }

  lemma StepTidy(s: State, e: Event, names: set<text>)
    requires Tidy(s, names) && Safe(names) && Accepts(s, e) && NamesIn([e], names)
    ensures Tidy(Step(s, e), names)
  {
    if e.GroupStart? {
      assert e in [e];
    } else if e.GroupEnd? && s.started {
      EndTidy(s, names);
    }
  }

  lemma {:induction false} RunTidy(s: State, events: seq<Event>, names: set<text>)
    requires Tidy(s, names) && Safe(names) && CanRun(s, events) && NamesIn(events, names)
    ensures Tidy(Run(s, events), names)
    decreases |events|
  {
    if events != [] {
      assert NamesIn([events[0]], names) && NamesIn(events[1..], names) by {
        assert forall e :: e in [events[0]] || e in events[1..] ==> e in events;
      }
      StepTidy(s, events[0], names);
      RunTidy(Step(s, events[0]), events[1..], names);
    }
  }

  // ----- whole specifications

  /** The events of a specification: messages one after another. The header and the
      trailer are such messages too. */
  function SpecEvents(messages: seq<seq<Group>>): seq<Event> {
    if messages == [] then [] else MessageEvents(messages[0]) + SpecEvents(messages[1..])
  }

  function MessageEvents(gs: seq<Group>): seq<Event> {
    [MessageStart([])] + AllEvents(gs) + [MessageEnd]
  }

  lemma {:induction false} MessageRuns(s: State, gs: seq<Group>)
    ensures CanRun(s, MessageEvents(gs))
    ensures
      var r := Run(s, MessageEvents(gs));
      Extends(s.classes, r.classes) && r.frames == [] && ChildrenOf(r.classes, gs).Some?
  {
    AllRun(Step(s, MessageStart([])), gs);
    RunThree(s, MessageStart([]), AllEvents(gs), MessageEnd);
  }

  lemma {:induction false} SpecRuns(s: State, messages: seq<seq<Group>>)
    ensures CanRun(s, SpecEvents(messages))
    ensures
      var r := Run(s, SpecEvents(messages));
      && Extends(s.classes, r.classes) && (s.frames == [] ==> r.frames == [])
      && forall i :: 0 <= i < |messages| ==> ChildrenOf(r.classes, messages[i]).Some?
    decreases |messages|
  {
    if messages != [] {
      MessageRuns(s, messages[0]);
      var s1 := Run(s, MessageEvents(messages[0]));
      SpecRuns(s1, messages[1..]);
      var r := Run(s1, SpecEvents(messages[1..]));
      RunConcat(s, MessageEvents(messages[0]), SpecEvents(messages[1..]));
      ChildrenStay(s1.classes, r.classes, messages[0]);
      forall i | 0 <= i < |messages|
        ensures ChildrenOf(r.classes, messages[i]).Some?
      {
        if i > 0 {
          assert messages[1..][i - 1] == messages[i];
        }
      }
    }
  }

  /** g is one of the groups, or nested in one of them at any depth. */
  ghost predicate Occurs(g: Group, gs: seq<Group>)
    decreases gs
  {
    gs != [] && (g == gs[0] || Occurs(g, gs[0].children) || Occurs(g, gs[1..]))
  }

  ghost predicate In(g: Group, messages: seq<seq<Group>>) {
    exists i :: 0 <= i < |messages| && Occurs(g, messages[i])
  }

  ghost predicate SameExactlyWhenEqual(m: Table, g: Group, h: Group) {
    && ClassOf(m, g).Some? && ClassOf(m, h).Some?
    && (ClassOf(m, g) == ClassOf(m, h) <==> g == h)
  }

  lemma {:induction false} OccurrenceHasClass(m: Table, g: Group, gs: seq<Group>)
    requires ChildrenOf(m, gs).Some? && Occurs(g, gs)
    ensures ClassOf(m, g).Some?
    decreases gs
  {
    if g != gs[0] {
      if Occurs(g, gs[0].children) {
        OccurrenceHasClass(m, g, gs[0].children);
      } else {
        OccurrenceHasClass(m, g, gs[1..]);
      }
    }
  }

  /** Two occurrences of groups, anywhere in a specification, get the same class exactly
      when their whole nested structures are equal; no class file is written twice; and the
      stack of frames is empty again. */
  lemma SharedExactlyWhenEqual(messages: seq<seq<Group>>, names: set<text>)
    requires Safe(names) && NamesIn(SpecEvents(messages), names)
    ensures CanRun(INITIAL, SpecEvents(messages))
    ensures
      var r := Run(INITIAL, SpecEvents(messages));
      && r.frames == []
      && (forall i, j :: 0 <= i < j < |r.written| ==> r.written[i] != r.written[j])
      && forall g, h :: In(g, messages) && In(h, messages) ==> SameExactlyWhenEqual(r.classes, g, h)
  {
    SpecRuns(INITIAL, messages);
    RunTidy(INITIAL, SpecEvents(messages), names);
    var r := Run(INITIAL, SpecEvents(messages));
    forall g, h | In(g, messages) && In(h, messages)
      ensures SameExactlyWhenEqual(r.classes, g, h)
    {
      var a :| 0 <= a < |messages| && Occurs(g, messages[a]);
      var b :| 0 <= b < |messages| && Occurs(h, messages[b]);
      OccurrenceHasClass(r.classes, g, messages[a]);
      OccurrenceHasClass(r.classes, h, messages[b]);
      if ClassOf(r.classes, g) == ClassOf(r.classes, h) {
        SameClassSameGroup(r.classes, g, h);
      }
    }
  }

  // ----- the condition on names is needed

  /** A group without nested groups, told from others of its name by its number. */
  function Leaf(name: text, i: nat): Group {
    Group(name, Digits(i), None, [], [])
  }

  function LeafKey(name: text, i: nat): Frame {
    Frame(name, Digits(i), None, [], [])
  }

  function Leaves(name: text, lo: nat, hi: nat): (gs: seq<Group>)
    requires lo <= hi
    decreases hi - lo
  {
    if lo == hi then [] else [Leaf(name, lo)] + Leaves(name, lo + 1, hi)
  }

  lemma LeafRuns(s: State, name: text, i: nat)
    requires s.started && s.frames != [] && LeafKey(name, i) !in s.classes
    ensures CanRun(s, GroupEvents(Leaf(name, i)))
    ensures
      var r, count := Run(s, GroupEvents(Leaf(name, i))), CountOf(s.names, name) + 1;
      && r.started && r.frames != []
      && r.classes == s.classes[LeafKey(name, i) := ClassName(name, count)]
      && r.names == s.names[name := count]
  {
    var start := GroupStart(name, Digits(i), None, []);
    var s1 := Step(s, start);
    assert s1.frames[..|s1.frames| - 1] == s.frames;
    RunThree(s, start, [], GroupEnd);
    assert AllEvents([]) == [];
  }

  ghost predicate NumberedUpTo(r: State, name: text, i: nat) {
    && r.started && r.frames != []
    && LeafKey(name, i) in r.classes && r.classes[LeafKey(name, i)] == ClassName(name, i)
    && (forall k :: k in r.classes ==> k.name == name)
  }

  /** The leaves from i on, when those before i have been numbered. */
  /** The table has only leaves of the name with smaller numbers. */
  ghost predicate LeavesOnly(m: Table, name: text, lo: nat) {
    forall k :: k in m ==> k.name == name && exists j: nat :: j < lo && k == LeafKey(name, j)
  }

  lemma LeafKeysDiffer(name: text, lo: nat)
    ensures forall j: nat :: j < lo ==> LeafKey(name, j) != LeafKey(name, lo)
  {
    forall j: nat | j < lo
      ensures LeafKey(name, j) != LeafKey(name, lo)
    {
      ValueOfDigits(j);
      ValueOfDigits(lo);
    }
  }

  lemma OneLeafMore(m: Table, n: Table, name: text, lo: nat)
    requires LeavesOnly(m, name, lo) && n.Keys <= m.Keys + {LeafKey(name, lo)} && LeafKey(name, lo).name == name
    ensures LeavesOnly(n, name, lo + 1)
  {
    forall k | k in n
      ensures k.name == name && exists j: nat :: j < lo + 1 && k == LeafKey(name, j)
    {
      if k in m {
        var j: nat :| j < lo && k == LeafKey(name, j);
      } else {
        assert k == LeafKey(name, lo);
      }
    }
  }

  /** Leaves up to i have been numbered; the counts of other names are as they were. */
  ghost predicate LeavesGive(s: State, r: State, name: text, i: nat) {
    NumberedUpTo(r, name, i) && forall n :: n != name ==> CountOf(r.names, n) == CountOf(s.names, n)
  }

  ghost predicate ReadyFor(s: State, name: text, lo: nat) {
    s.started && s.frames != [] && lo >= 1 && CountOf(s.names, name) == lo - 1 && LeavesOnly(s.classes, name, lo)
  }

  lemma LeafGives(s: State, name: text, lo: nat)
    requires ReadyFor(s, name, lo)
    ensures CanRun(s, GroupEvents(Leaf(name, lo)))
    ensures var s1 := Run(s, GroupEvents(Leaf(name, lo))); LeavesGive(s, s1, name, lo) && ReadyFor(s1, name, lo + 1)
  {
    LeafKeysDiffer(name, lo);
    LeafRuns(s, name, lo);
    OneLeafMore(s.classes, Run(s, GroupEvents(Leaf(name, lo))).classes, name, lo);
  }

  lemma {:induction false} LeavesRun(s: State, name: text, lo: nat, hi: nat)
    requires lo < hi && ReadyFor(s, name, lo)
    ensures CanRun(s, AllEvents(Leaves(name, lo, hi)))
    ensures LeavesGive(s, Run(s, AllEvents(Leaves(name, lo, hi))), name, hi - 1)
    decreases hi - lo
  {
    LeafGives(s, name, lo);
    var s1 := Run(s, GroupEvents(Leaf(name, lo)));
    if lo + 1 == hi {
      assert AllEvents(Leaves(name, lo + 1, hi)) == [];
      assert Run(s1, []) == s1;
    } else {
      LeavesRun(s1, name, lo + 1, hi);
      GiveTwice(s, s1, Run(s1, AllEvents(Leaves(name, lo + 1, hi))), name, lo, hi - 1);
    }
    LeafThenLeaves(s, s1, name, lo, hi);
  }

  lemma GiveTwice(s: State, s1: State, r: State, name: text, i: nat, j: nat)
    requires LeavesGive(s, s1, name, i) && LeavesGive(s1, r, name, j)
    ensures LeavesGive(s, r, name, j)
  {
  }

  lemma LeafThenLeaves(s: State, s1: State, name: text, lo: nat, hi: nat)
    requires lo < hi && CanRun(s, GroupEvents(Leaf(name, lo))) && s1 == Run(s, GroupEvents(Leaf(name, lo)))
    requires CanRun(s1, AllEvents(Leaves(name, lo + 1, hi)))
    ensures CanRun(s, AllEvents(Leaves(name, lo, hi)))
    ensures Run(s, AllEvents(Leaves(name, lo, hi))) == Run(s1, AllEvents(Leaves(name, lo + 1, hi)))
  {
    assert Leaves(name, lo, hi)[1..] == Leaves(name, lo + 1, hi);
    RunConcat(s, GroupEvents(Leaf(name, lo)), AllEvents(Leaves(name, lo + 1, hi)));
  }

  /** The generator's state in the first message. */
  const WITHIN := Step(INITIAL, MessageStart([]))

  lemma EventsOfOne(h: Group)
    ensures AllEvents([h]) == GroupEvents(h)
  {
    assert [h][1..] == [] && AllEvents([]) == [];
  }

  lemma OtherLeafRuns(s: State, n: text, m: text, k: nat)
    requires NumberedUpTo(s, m, k) && n != m && CountOf(s.names, n) == 0
    ensures CanRun(s, GroupEvents(Leaf(n, 1)))
    ensures
      var classes := Run(s, GroupEvents(Leaf(n, 1))).classes;
      && LeafKey(m, k) in classes && classes[LeafKey(m, k)] == ClassName(m, k)
      && LeafKey(n, 1) in classes && classes[LeafKey(n, 1)] == n
  {
    LeafRuns(s, n, 1);
  }

  /** Leaves of one name up to a number, and then one leaf of another name. */
  lemma LeavesThenLeaf(n: text, m: text, k: nat)
    requires k >= 1 && n != m
    ensures CanRun(WITHIN, AllEvents(Leaves(m, 1, k + 1) + [Leaf(n, 1)]))
    ensures
      var classes := Run(WITHIN, AllEvents(Leaves(m, 1, k + 1) + [Leaf(n, 1)])).classes;
      && LeafKey(m, k) in classes && classes[LeafKey(m, k)] == ClassName(m, k)
      && LeafKey(n, 1) in classes && classes[LeafKey(n, 1)] == n
  {
    var leaves, h := Leaves(m, 1, k + 1), Leaf(n, 1);
    LeavesRun(WITHIN, m, 1, k + 1);
    OtherLeafRuns(Run(WITHIN, AllEvents(leaves)), n, m, k);
    AllEventsConcat(leaves, [h]);
    EventsOfOne(h);
    RunConcat(WITHIN, AllEvents(leaves), AllEvents([h]));
  }

  lemma LeafClass(classes: Table, name: text, i: nat)
    requires LeafKey(name, i) in classes
    ensures ClassOf(classes, Leaf(name, i)) == Some(classes[LeafKey(name, i)])
  {
  }

  /** When a name is another one with a shared class's suffix, there is a specification over
      the two names in which groups of different structure get one class. */
  lemma UnsafeNamesCollide(n: text, m: text, k: nat) returns (gs: seq<Group>, g: Group, h: Group)
    requires k >= 2 && n == ClassName(m, k)
    ensures forall x :: x in gs ==> x.name == n || x.name == m
    ensures g in gs && h in gs && g != h
    ensures CanRun(WITHIN, AllEvents(gs))
    ensures
      var classes := Run(WITHIN, AllEvents(gs)).classes;
      ClassOf(classes, g).Some? && ClassOf(classes, g) == ClassOf(classes, h)
  {
    assert n != m;
    g, h := Leaf(m, k), Leaf(n, 1);
    gs := Leaves(m, 1, k + 1) + [h];
    LeavesThenLeaf(n, m, k);
    LeavesMembers(m, 1, k + 1, k);
    var classes := Run(WITHIN, AllEvents(gs)).classes;
    LeafClass(classes, m, k);
    LeafClass(classes, n, 1);
  }

  lemma {:induction false} AllEventsConcat(gs: seq<Group>, hs: seq<Group>)
    ensures AllEvents(gs + hs) == AllEvents(gs) + AllEvents(hs)
  {
    if gs == [] {
      assert gs + hs == hs;
    } else {
      assert (gs + hs)[1..] == gs[1..] + hs;
      AllEventsConcat(gs[1..], hs);
    }
  }

  lemma {:induction false} LeavesMembers(name: text, lo: nat, hi: nat, i: nat)
    requires lo <= i < hi
    ensures Leaf(name, i) in Leaves(name, lo, hi)
    ensures forall x :: x in Leaves(name, lo, hi) ==> x.name == name
    decreases hi - lo
  {
    if i > lo {
      LeavesMembers(name, lo + 1, hi, i);
    } else if lo + 1 < hi {
      LeavesMembers(name, lo + 1, hi, lo + 1);
    }
  }
}
