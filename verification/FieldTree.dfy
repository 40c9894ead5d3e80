/** The recursive measures of a field map: its encoding, and the length and byte sum that
    are calculated without encoding it. */
module FieldTrees {
  import opened Decimal
  import opened Fields
  import opened MessageOrder
  import opened FieldMaps

  /** Two ways to weigh an encoding. */
  datatype Measure = Length | Sum {

    function Of(s: seq<byte>): nat {
      if Length? then |s| else ByteSum(s)
    }

    /** The tags that the calculation leaves out of groups. */
    function Skips(): set<int> {
      if Length? then {BEGIN_STRING, BODY_LENGTH, CHECK_SUM} else {CHECK_SUM}
    }

    lemma Concat(s: seq<byte>, t: seq<byte>)
      ensures Of(s + t) == Of(s) + Of(t)
    {
      ByteSumConcat(s, t);
    }
  }

  /** Tags are ints, at every level. */
  ghost predicate TagsFit(t: Tree) {
    && (forall f :: f in t.fields ==> IsTag(f.tag))
    && forall e, g :: e in t.groups && g in e.groups ==> TagsFit(g)
  }

  // ----- the encoding

  /** Each field, followed by the groups that it counts. */
  function Encoding(t: Tree): seq<byte>
    decreases t, |t.fields| + 1
  {
    EncodingFrom(t, 0)
  }

  /** The encoding from the field at k on. */
  function EncodingFrom(t: Tree, k: nat): seq<byte>
    requires k <= |t.fields|
    decreases t, |t.fields| - k
  {
    if k == |t.fields| then [] else
      Encoded(t.fields[k]) + EncodingUnder(t, t.fields[k].tag) + EncodingFrom(t, k + 1)
  }

  function EncodingUnder(t: Tree, tag: int): seq<byte>
    decreases t, 0
  {
    if Has(t.groups, tag) then EncodingOfGroups(t.groups[EntryOf(t.groups, tag)].groups) else []
  }

  function EncodingOfGroups(gs: seq<Tree>): seq<byte>
    decreases gs
  {
    if gs == [] then [] else Encoding(gs[0]) + EncodingOfGroups(gs[1..])
  }

  method CalculateString(t: Tree, result: seq<byte>) returns (r: seq<byte>)
    requires TagsFit(t)
    ensures r == result + Encoding(t)
    decreases t, 1
  {
    ghost var whole := result + Encoding(t);
    r := result;
    for k := 0 to |t.fields|
      invariant r + EncodingFrom(t, k) == whole
    {
      EncodingStep(t, k, r);
      r := AppendField(t, t.fields[k], r);
    }
    EncodingDone(t, r);
  }

  lemma EncodingStep(t: Tree, k: nat, r: seq<byte>)
    requires k < |t.fields|
    ensures r + EncodingFrom(t, k)
         == (r + Encoded(t.fields[k]) + EncodingUnder(t, t.fields[k].tag)) + EncodingFrom(t, k + 1)
  {
    Regroup(r, Encoded(t.fields[k]), EncodingUnder(t, t.fields[k].tag), EncodingFrom(t, k + 1));
  }

  lemma EncodingDone(t: Tree, r: seq<byte>)
    ensures r + EncodingFrom(t, |t.fields|) == r
  {
  }

  lemma Regroup(a: seq<byte>, b: seq<byte>, c: seq<byte>, d: seq<byte>)
    ensures a + (b + c + d) == (a + b + c) + d
  {
  }

  /** The body of the loop of calculateString: a field, and its groups if there are any. */
  method AppendField(t: Tree, f: Field, result: seq<byte>) returns (r: seq<byte>)
    requires TagsFit(t) && f in t.fields
    ensures r == result + Encoded(f) + EncodingUnder(t, f.tag)
    decreases t, 0
  {
    r := AppendTo(f, result);
    if |t.groups| > 0 && Has(t.groups, f.tag) {
      r := AppendGroups(t.groups[EntryOf(t.groups, f.tag)], r);
    }
  }

  /** The inner loop of calculateString. */
  method AppendGroups(e: Entry, result: seq<byte>) returns (r: seq<byte>)
    requires forall g :: g in e.groups ==> TagsFit(g)
    ensures r == result + EncodingOfGroups(e.groups)
    decreases e, 0
  {
    r := result;
    for j := 0 to |e.groups|
      invariant r + EncodingOfGroups(e.groups[j..]) == result + EncodingOfGroups(e.groups)
    {
      assert e.groups[j..][1..] == e.groups[j + 1..];
      ghost var before := r;
      r := CalculateString(e.groups[j], r);
      assert r + EncodingOfGroups(e.groups[j + 1..]) == before + EncodingOfGroups(e.groups[j..]);
    }
  }

  // ----- the order of the text

  function Joined(parts: seq<seq<byte>>): seq<byte> {
    if parts == [] then [] else parts[0] + Joined(parts[1..])
  }

  /** A field, and the groups of its tag. */
  function TextOf(f: Field, es: seq<Entry>): seq<byte> {
    Encoded(f) + EncodingOfGroups(GroupsOf(es, f.tag))
  }

  /** The text is, for field after field, the field and at once behind it the groups of its
      tag; groups of a tag that has no field are not in it. */
  lemma FieldsInOrder(t: Tree)
    ensures Encoding(t) == Joined(seq(|t.fields|, i requires 0 <= i < |t.fields| => TextOf(t.fields[i], t.groups)))
  {
    var parts := seq(|t.fields|, i requires 0 <= i < |t.fields| => TextOf(t.fields[i], t.groups));
    FieldsFrom(t, parts, 0);
    assert parts[0..] == parts;
  }

  lemma {:induction false} FieldsFrom(t: Tree, parts: seq<seq<byte>>, k: nat)
    requires |parts| == |t.fields| && k <= |parts|
    requires forall i :: 0 <= i < |parts| ==> parts[i] == TextOf(t.fields[i], t.groups)
    ensures EncodingFrom(t, k) == Joined(parts[k..])
    decreases |parts| - k
  {
    if k < |parts| {
      assert parts[k..][1..] == parts[k + 1..];
      FieldsFrom(t, parts, k + 1);
      EncodingNext(t, k);
    }
  }

  lemma EncodingNext(t: Tree, k: nat)
    requires k < |t.fields|
    ensures EncodingFrom(t, k) == TextOf(t.fields[k], t.groups) + EncodingFrom(t, k + 1)
  {
  }

  /** The groups of a tag stand in their order. */
  lemma {:induction false} GroupsInOrder(gs: seq<Tree>)
    ensures EncodingOfGroups(gs) == Joined(seq(|gs|, i requires 0 <= i < |gs| => Encoding(gs[i])))
  {
    if gs != [] {
      var parts := seq(|gs|, i requires 0 <= i < |gs| => Encoding(gs[i]));
      GroupsInOrder(gs[1..]);
      assert parts[1..] == seq(|gs[1..]|, i requires 0 <= i < |gs[1..]| => Encoding(gs[1..][i]));
    }
  }

  // ----- the calculated measures

  /** The fields that a calculation counts, or those that it leaves out. */
  datatype Part = Kept | Skipped {
    predicate Takes(tag: int, skips: set<int>) {
      Kept? == (tag !in skips)
    }
  }

  /** The weight of one part of a tree: its fields by the given tags, all groups by the usual. */
  function Tally(t: Tree, m: Measure, part: Part, skips: set<int>): nat
    decreases t
  {
    TallyFields(t.fields, m, part, skips) + TallyEntries(t.groups, m, part)
  }

  function TallyFields(fields: seq<Field>, m: Measure, part: Part, skips: set<int>): nat {
    if fields == [] then 0 else
      (if part.Takes(fields[0].tag, skips) then m.Of(Encoded(fields[0])) else 0)
      + TallyFields(fields[1..], m, part, skips)
  }

  function TallyEntries(es: seq<Entry>, m: Measure, part: Part): nat
    decreases es
  {
    if es == [] then 0 else TallyGroups(es[0].groups, m, part) + TallyEntries(es[1..], m, part)
  }

  function TallyGroups(gs: seq<Tree>, m: Measure, part: Part): nat
    decreases gs
  {
    if gs == [] then 0 else Tally(gs[0], m, part, m.Skips()) + TallyGroups(gs[1..], m, part)
  }

  method CalculateLength(t: Tree, beginString: int, bodyLength: int, checkSum: int) returns (result: nat)
    requires TagsFit(t)
    ensures result == Tally(t, Length, Kept, {beginString, bodyLength, checkSum})
    decreases t
  {
    result := 0;
    ghost var skips := {beginString, bodyLength, checkSum};
    for k := 0 to |t.fields|
      invariant result + TallyFields(t.fields[k..], Length, Kept, skips) == TallyFields(t.fields, Length, Kept, skips)
    {
      var f := t.fields[k];
      assert t.fields[k..][1..] == t.fields[k + 1..];
      if f.tag != beginString && f.tag != bodyLength && f.tag != checkSum {
        var length, _ := CalculateMetrics(f.tag, f.value);
        result := result + length;
      }
    }
    ghost var own := result;
    for i := 0 to |t.groups|
      invariant result + TallyEntries(t.groups[i..], Length, Kept) == own + TallyEntries(t.groups, Length, Kept)
    {
      var e := t.groups[i];
      assert t.groups[i..][1..] == t.groups[i + 1..];
      ghost var before := result;
      for j := 0 to |e.groups|
        invariant result + TallyGroups(e.groups[j..], Length, Kept) == before + TallyGroups(e.groups, Length, Kept)
      {
        assert e.groups[j..][1..] == e.groups[j + 1..];
        var length := CalculateLength(e.groups[j], BEGIN_STRING, BODY_LENGTH, CHECK_SUM);
        result := result + length;
      }
    }
  }

  method CalculateTotal(t: Tree, checkSum: int) returns (result: nat)
    requires TagsFit(t)
    ensures result == Tally(t, Sum, Kept, {checkSum})
    decreases t
  {
    result := 0;
    for k := 0 to |t.fields|
      invariant result + TallyFields(t.fields[k..], Sum, Kept, {checkSum}) == TallyFields(t.fields, Sum, Kept, {checkSum})
    {
      var f := t.fields[k];
      assert t.fields[k..][1..] == t.fields[k + 1..];
      if f.tag != checkSum {
        var _, total := CalculateMetrics(f.tag, f.value);
        result := result + total;
      }
    }
    ghost var own := result;
    for i := 0 to |t.groups|
      invariant result + TallyEntries(t.groups[i..], Sum, Kept) == own + TallyEntries(t.groups, Sum, Kept)
    {
      var e := t.groups[i];
      assert t.groups[i..][1..] == t.groups[i + 1..];
      ghost var before := result;
      for j := 0 to |e.groups|
        invariant result + TallyGroups(e.groups[j..], Sum, Kept) == before + TallyGroups(e.groups, Sum, Kept)
      {
        assert e.groups[j..][1..] == e.groups[j + 1..];
        var total := CalculateTotal(e.groups[j], CHECK_SUM);
        result := result + total;
      }
    }
  }

  // ----- what they have to do with the encoding

  /** What the groups weigh when each entry is written once for every field of its tag. */
  function ByCount(es: seq<Entry>, fields: seq<Field>, m: Measure): nat {
    if es == [] then 0 else
      Count(fields, es[0].tag) * m.Of(EncodingOfGroups(es[0].groups)) + ByCount(es[1..], fields, m)
  }

  /** One more field writes the groups of its tag once more. */
  lemma {:induction false} OneMoreField(es: seq<Entry>, fields: seq<Field>, m: Measure)
    requires SortedGroups(es) && fields != []
    ensures ByCount(es, fields, m) == ByCount(es, fields[1..], m) + m.Of(EncodingOfGroups(GroupsOf(es, fields[0].tag)))
  {
    NoGroups(m);
    if es != [] {
      TailSorted(es);
      Unfold(es, fields[0].tag);
      OneMoreField(es[1..], fields, m);
      ByCountUnfold(es, fields, m);
      ByCountUnfold(es, fields[1..], m);
      OnceMore(Count(fields[1..], es[0].tag), m.Of(EncodingOfGroups(es[0].groups)));
    }
  }

  lemma NoGroups(m: Measure)
    ensures m.Of(EncodingOfGroups([])) == 0
  {
  }

  lemma OnceMore(n: nat, w: nat)
    ensures (n + 1) * w == n * w + w
  {
  }

  lemma ByCountUnfold(es: seq<Entry>, fields: seq<Field>, m: Measure)
    requires es != []
    ensures ByCount(es, fields, m)
         == Count(fields, es[0].tag) * m.Of(EncodingOfGroups(es[0].groups)) + ByCount(es[1..], fields, m)
  {
  }

  lemma {:induction false} NoFields(es: seq<Entry>, m: Measure)
    ensures ByCount(es, [], m) == 0
  {
    if es != [] {
      NoFields(es[1..], m);
    }
  }

  /** For every tree: the encoding weighs what its own fields weigh, and each entry as often
      as there are fields of its tag. */
  lemma {:induction false} EncodingByCount(t: Tree, k: nat, m: Measure, skips: set<int>)
    requires SortedGroups(t.groups) && k <= |t.fields|
    ensures m.Of(EncodingFrom(t, k))
         == TallyFields(t.fields[k..], m, Kept, skips) + TallyFields(t.fields[k..], m, Skipped, skips)
          + ByCount(t.groups, t.fields[k..], m)
    decreases |t.fields| - k
  {
    if k == |t.fields| {
      NoFields(t.groups, m);
    } else {
      var f := t.fields[k];
      assert t.fields[k..][1..] == t.fields[k + 1..];
      EncodingByCount(t, k + 1, m, skips);
      OneMoreField(t.groups, t.fields[k..], m);
      m.Concat(Encoded(f) + EncodingUnder(t, f.tag), EncodingFrom(t, k + 1));
      m.Concat(Encoded(f), EncodingUnder(t, f.tag));
    }
  }

  /** At every level each entry's tag has exactly one field. */
  ghost predicate Balanced(t: Tree) {
    && SortedGroups(t.groups)
    && (forall e :: e in t.groups ==> Count(t.fields, e.tag) == 1)
    && forall e, g :: e in t.groups && g in e.groups ==> Balanced(g)
  }

  /** The calculated measure and what it leaves out make up the encoding. */
  lemma {:induction false} EncodingMeasure(t: Tree, m: Measure, skips: set<int>)
    requires Balanced(t)
    ensures m.Of(Encoding(t)) == Tally(t, m, Kept, skips) + Tally(t, m, Skipped, skips)
    decreases t
  {
    EncodingByCount(t, 0, m, skips);
    assert t.fields[0..] == t.fields;
    EntriesMeasure(t.groups, t.fields, m);
  }

  lemma {:induction false} EntriesMeasure(es: seq<Entry>, fields: seq<Field>, m: Measure)
    requires forall e :: e in es ==> Count(fields, e.tag) == 1
    requires forall e, g :: e in es && g in e.groups ==> Balanced(g)
    ensures ByCount(es, fields, m) == TallyEntries(es, m, Kept) + TallyEntries(es, m, Skipped)
    decreases es
  {
    if es != [] {
      assert es[0] in es;
      GroupsMeasure(es[0].groups, m);
      EntriesMeasure(es[1..], fields, m);
    }
  }

  lemma {:induction false} GroupsMeasure(gs: seq<Tree>, m: Measure)
    requires forall g :: g in gs ==> Balanced(g)
    ensures m.Of(EncodingOfGroups(gs)) == TallyGroups(gs, m, Kept) + TallyGroups(gs, m, Skipped)
    decreases gs
  {
    if gs == [] {
      assert m.Of([]) == 0;
    } else {
      m.Concat(Encoding(gs[0]), EncodingOfGroups(gs[1..]));
      EncodingMeasure(gs[0], m, m.Skips());
      GroupsMeasure(gs[1..], m);
    }
  }

  // ----- maps that are built by the operations

  ghost predicate AllBalanced(es: seq<Entry>) {
    forall e, g :: e in es && g in e.groups ==> Balanced(g)
  }

  predicate Brings(op: Op) {
    op.Add? || op.Replace?
  }

  lemma RemovalKeepsBalanced(p: Parts, tag: int)
    requires SortedGroups(p.groups) && AllBalanced(p.groups)
    ensures AllBalanced(p.RemoveField(tag).groups) && AllBalanced(p.RemoveGroups(tag).groups)
    ensures AllBalanced(p.(groups := WithoutEntry(p.groups, tag)).RemoveField(tag).groups)
  {
    RemoveFieldEffect(p, tag);
    RemoveGroupsEffect(p, tag);
    EntryGoneSorted(p.groups, tag);
    RemoveFieldEffect(p.(groups := WithoutEntry(p.groups, tag)), tag);
    EntryGoneSorted(WithoutEntry(p.groups, tag), tag);
  }

  lemma NewGroupsBalanced(es: seq<Entry>, tag: int, gs: seq<Tree>)
    requires SortedGroups(es) && AllBalanced(es)
    requires forall g :: g in gs ==> Balanced(g)
    ensures AllBalanced(WithGroups(es, tag, gs))
  {
    WithGroupsSorted(es, tag, gs);
  }

  lemma OldGroupsBalanced(es: seq<Entry>, tag: int)
    requires AllBalanced(es)
    ensures forall g :: g in GroupsOf(es, tag) ==> Balanced(g)
  {
    if Has(es, tag) {
      assert es[EntryOf(es, tag)] in es;
    }
  }

  lemma ApplyKeepsBalanced(order: Order, p: Parts, op: Op)
    requires SortedGroups(p.groups) && AllBalanced(p.groups)
    requires Brings(op) ==> Balanced(op.g)
    ensures AllBalanced(Apply(order, p, op).groups)
  {
    match op
    case Set(_, _) =>
    case Remove(tag) => RemovalKeepsBalanced(p, tag);
    case RemoveAll(tag) => RemovalKeepsBalanced(p, tag);
    case Add(tag, g, _) =>
      OldGroupsBalanced(p.groups, tag);
      NewGroupsBalanced(p.groups, tag, GroupsOf(p.groups, tag) + [g]);
    case Replace(num, tag, g) =>
      if p.HasGroup(num, tag) {
        OldGroupsBalanced(p.groups, tag);
        NewGroupsBalanced(p.groups, tag, GroupsOf(p.groups, tag)[num - 1 := g]);
      }
    case RemoveOne(num, tag) =>
      RemovalKeepsBalanced(p, tag);
      if p.HasGroup(num, tag) {
        var gs := GroupsOf(p.groups, tag);
        OldGroupsBalanced(p.groups, tag);
        NewGroupsBalanced(p.groups, tag, gs[..num - 1] + gs[num..]);
      }
  }

  lemma {:induction false} RunKeepsBalanced(order: Order, ops: seq<Op>, tags: set<int>)
    requires forall op :: op in ops ==> Follows(op, tags)
    requires forall op :: op in ops && Brings(op) ==> Balanced(op.g)
    ensures AllBalanced(Run(order, ops).groups)
  {
    if ops != [] {
      RunKeepsBalanced(order, ops[..|ops| - 1], tags);
      RunKeepsCounted(order, ops[..|ops| - 1], tags);
      ApplyKeepsBalanced(order, Run(order, ops[..|ops| - 1]), ops[|ops| - 1]);
    }
  }

  /** A map built from such groups, with no count field written by hand, has the length and
      byte sum that are calculated for it. */
  lemma RunMeasure(order: Order, ops: seq<Op>, tags: set<int>, m: Measure, skips: set<int>)
    requires forall op :: op in ops ==> Follows(op, tags)
    requires forall op :: op in ops && Brings(op) ==> Balanced(op.g)
    ensures
      var t := Tree(order, Run(order, ops).fields, Run(order, ops).groups);
      Balanced(t) && m.Of(Encoding(t)) == Tally(t, m, Kept, skips) + Tally(t, m, Skipped, skips)
  {
    var p := Run(order, ops);
    var t := Tree(order, p.fields, p.groups);
    RunKeepsBalanced(order, ops, tags);
    RunKeepsCounted(order, ops, tags);
    forall e | e in t.groups
      ensures Count(t.fields, e.tag) == 1
    {
      HasEntry(p.groups, e);
      assert CountedAt(p, e.tag);
    }
    EncodingMeasure(t, m, skips);
  }

  lemma {:induction false} HasEntry(es: seq<Entry>, e: Entry)
    requires e in es
    ensures Has(es, e.tag)
  {
    if e != es[0] {
      HasEntry(es[1..], e);
      Unfold(es, e.tag);
    }
  }

  // ----- when exactly they agree

  /** No tag with groups has a second field, at any level. */
  ghost predicate Unrepeated(t: Tree) {
    && SortedGroups(t.groups)
    && (forall e :: e in t.groups ==> Count(t.fields, e.tag) <= 1)
    && forall e, g :: e in t.groups && g in e.groups ==> Unrepeated(g)
  }

  /** Every group with something to write is written: its tag has a field, at every level. */
  ghost predicate Written(t: Tree, m: Measure)
    decreases t
  {
    forall e :: e in t.groups ==>
      if Count(t.fields, e.tag) == 1 then forall g :: g in e.groups ==> Written(g, m)
      else TallyGroups(e.groups, m, Kept) + TallyGroups(e.groups, m, Skipped) == 0
  }

  /** Without repeated count fields the calculation never falls short of the encoding, and
      is exact if and only if no groups are left unwritten. */
  lemma {:induction false} ExactIffWritten(t: Tree, m: Measure, skips: set<int>)
    requires Unrepeated(t)
    ensures m.Of(Encoding(t)) <= Tally(t, m, Kept, skips) + Tally(t, m, Skipped, skips)
    ensures m.Of(Encoding(t)) == Tally(t, m, Kept, skips) + Tally(t, m, Skipped, skips) <==> Written(t, m)
    decreases t
  {
    EncodingByCount(t, 0, m, skips);
    assert t.fields[0..] == t.fields;
    EntriesWritten(t.groups, t.fields, m);
  }

  ghost predicate EntryWritten(e: Entry, fields: seq<Field>, m: Measure) {
    if Count(fields, e.tag) == 1 then forall g :: g in e.groups ==> Written(g, m)
    else TallyGroups(e.groups, m, Kept) + TallyGroups(e.groups, m, Skipped) == 0
  }

  lemma {:induction false} EntriesWritten(es: seq<Entry>, fields: seq<Field>, m: Measure)
    requires forall e :: e in es ==> Count(fields, e.tag) <= 1
    requires forall e, g :: e in es && g in e.groups ==> Unrepeated(g)
    ensures ByCount(es, fields, m) <= TallyEntries(es, m, Kept) + TallyEntries(es, m, Skipped)
    ensures ByCount(es, fields, m) == TallyEntries(es, m, Kept) + TallyEntries(es, m, Skipped)
       <==> forall e :: e in es ==> EntryWritten(e, fields, m)
    decreases es
  {
    if es != [] {
      assert es[0] in es;
      GroupsWritten(es[0].groups, m);
      EntriesWritten(es[1..], fields, m);
      ByCountUnfold(es, fields, m);
      OnceOrNever(Count(fields, es[0].tag), m.Of(EncodingOfGroups(es[0].groups)));
      HeadAndTail(es, fields, m);
    }
  }

  lemma OnceOrNever(n: nat, w: nat)
    requires n <= 1
    ensures n * w == if n == 1 then w else 0
  {
  }

  lemma HeadAndTail(es: seq<Entry>, fields: seq<Field>, m: Measure)
    requires es != []
    ensures (forall e :: e in es ==> EntryWritten(e, fields, m))
       <==> EntryWritten(es[0], fields, m) && forall e :: e in es[1..] ==> EntryWritten(e, fields, m)
  {
    assert forall e :: e in es <==> e == es[0] || e in es[1..];
  }

  lemma {:induction false} GroupsWritten(gs: seq<Tree>, m: Measure)
    requires forall g :: g in gs ==> Unrepeated(g)
    ensures m.Of(EncodingOfGroups(gs)) <= TallyGroups(gs, m, Kept) + TallyGroups(gs, m, Skipped)
    ensures m.Of(EncodingOfGroups(gs)) == TallyGroups(gs, m, Kept) + TallyGroups(gs, m, Skipped)
       <==> forall g :: g in gs ==> Written(g, m)
    decreases gs
  {
    if gs == [] {
      assert m.Of([]) == 0;
    } else {
      m.Concat(Encoding(gs[0]), EncodingOfGroups(gs[1..]));
      ExactIffWritten(gs[0], m, m.Skips());
      GroupsWritten(gs[1..], m);
      assert forall g :: g in gs <==> g == gs[0] || g in gs[1..];
    }
  }

  /** Every tag with groups has a field, at every level. */
  ghost predicate NoneMissing(t: Tree) {
    && SortedGroups(t.groups)
    && (forall e :: e in t.groups ==> Count(t.fields, e.tag) >= 1)
    && forall e, g :: e in t.groups && g in e.groups ==> NoneMissing(g)
  }

  /** No groups with something to write are written twice, at any level. */
  ghost predicate WrittenOnce(t: Tree, m: Measure)
    decreases t
  {
    forall e :: e in t.groups ==>
      || m.Of(EncodingOfGroups(e.groups)) == 0
      || (Count(t.fields, e.tag) == 1 && forall g :: g in e.groups ==> WrittenOnce(g, m))
  }

  /** Without missing count fields the calculation never exceeds the encoding, and is exact if
      and only if no groups are written twice. */
  lemma {:induction false} ExactIffWrittenOnce(t: Tree, m: Measure, skips: set<int>)
    requires NoneMissing(t)
    ensures m.Of(Encoding(t)) >= Tally(t, m, Kept, skips) + Tally(t, m, Skipped, skips)
    ensures m.Of(Encoding(t)) == Tally(t, m, Kept, skips) + Tally(t, m, Skipped, skips) <==> WrittenOnce(t, m)
    decreases t
  {
    EncodingByCount(t, 0, m, skips);
    assert t.fields[0..] == t.fields;
    EntriesWrittenOnce(t.groups, t.fields, m);
  }

  ghost predicate EntryWrittenOnce(e: Entry, fields: seq<Field>, m: Measure) {
    || m.Of(EncodingOfGroups(e.groups)) == 0
    || (Count(fields, e.tag) == 1 && forall g :: g in e.groups ==> WrittenOnce(g, m))
  }

  lemma {:induction false} EntriesWrittenOnce(es: seq<Entry>, fields: seq<Field>, m: Measure)
    requires forall e :: e in es ==> Count(fields, e.tag) >= 1
    requires forall e, g :: e in es && g in e.groups ==> NoneMissing(g)
    ensures ByCount(es, fields, m) >= TallyEntries(es, m, Kept) + TallyEntries(es, m, Skipped)
    ensures ByCount(es, fields, m) == TallyEntries(es, m, Kept) + TallyEntries(es, m, Skipped)
       <==> forall e :: e in es ==> EntryWrittenOnce(e, fields, m)
    decreases es
  {
    if es != [] {
      assert es[0] in es;
      GroupsWrittenOnce(es[0].groups, m);
      EntriesWrittenOnce(es[1..], fields, m);
      ByCountUnfold(es, fields, m);
      OnceOrMore(Count(fields, es[0].tag), m.Of(EncodingOfGroups(es[0].groups)));
      FirstAndRest(es, fields, m);
    }
  }

  lemma OnceOrMore(n: nat, w: nat)
    requires n >= 1
    ensures n * w >= w && (n * w == w <==> n == 1 || w == 0)
  {
    if n > 1 {
      assert n * w == w + (n - 1) * w;
    }
  }

  lemma FirstAndRest(es: seq<Entry>, fields: seq<Field>, m: Measure)
    requires es != []
    ensures (forall e :: e in es ==> EntryWrittenOnce(e, fields, m))
       <==> EntryWrittenOnce(es[0], fields, m) && forall e :: e in es[1..] ==> EntryWrittenOnce(e, fields, m)
  {
    assert forall e :: e in es <==> e == es[0] || e in es[1..];
  }

  lemma {:induction false} GroupsWrittenOnce(gs: seq<Tree>, m: Measure)
    requires forall g :: g in gs ==> NoneMissing(g)
    ensures m.Of(EncodingOfGroups(gs)) >= TallyGroups(gs, m, Kept) + TallyGroups(gs, m, Skipped)
    ensures m.Of(EncodingOfGroups(gs)) == TallyGroups(gs, m, Kept) + TallyGroups(gs, m, Skipped)
       <==> forall g :: g in gs ==> WrittenOnce(g, m)
    decreases gs
  {
    if gs == [] {
      assert m.Of([]) == 0;
    } else {
      m.Concat(Encoding(gs[0]), EncodingOfGroups(gs[1..]));
      ExactIffWrittenOnce(gs[0], m, m.Skips());
      GroupsWrittenOnce(gs[1..], m);
      assert forall g :: g in gs <==> g == gs[0] || g in gs[1..];
    }
  }

  /** The smallest case: a repeated count field writes its groups twice, and the calculation
      counts them once. */
  lemma RepeatedFallsShort(t: Tree, g: Tree)
    requires g == Tree(Normal, [Field(1, [])], [])
    requires t == Tree(Normal, [Field(2, []), Field(2, [])], [Entry(2, [g])])
    ensures |Encoding(t)| == Tally(t, Length, Kept, Length.Skips()) + 3
  {
    assert |Encoded(Field(1, []))| == 3 by {
      assert Text(1) == [49];
    }
    assert EncodingFrom(g, 1) == [];
    assert Encoding(g) == Encoded(Field(1, []));
    assert EncodingOfGroups([g]) == Encoding(g);
    assert TallyFields(g.fields, Length, Kept, Length.Skips()) == 3;
    EncodingByCount(t, 0, Length, Length.Skips());
    assert t.fields[0..] == t.fields && t.fields[1..] == [Field(2, [])];
    assert Count(t.fields, 2) == 1 + Count(t.fields[1..], 2) == 2;
    ByCountUnfold(t.groups, t.fields, Length);
    assert ByCount(t.groups[1..], t.fields, Length) == 0;
    assert TallyFields(t.fields[1..], Length, Skipped, Length.Skips()) == 0;
    assert TallyEntries(t.groups[1..], Length, Kept) == 0;
    assert TallyGroups([g][1..], Length, Kept) == 0;
    assert TallyEntries(g.groups, Length, Kept) == 0;
    assert Tally(g, Length, Kept, Length.Skips()) == 3;
    assert TallyGroups([g], Length, Kept) == 3;
    assert TallyEntries(t.groups, Length, Kept) == 3;
    assert EncodingOfGroups([g][1..]) == [];
    assert |EncodingOfGroups([g])| == 3;
    assert ByCount(t.groups, t.fields, Length) == 6;
  }

  // ----- trees without the skipped tags

  /** No field with one of the tags, at any level. */
  ghost predicate Free(t: Tree, tags: set<int>) {
    && (forall f :: f in t.fields ==> f.tag !in tags)
    && forall e, g :: e in t.groups && g in e.groups ==> Free(g, tags)
  }

  ghost predicate GroupsFree(t: Tree, tags: set<int>) {
    forall e, g :: e in t.groups && g in e.groups ==> Free(g, tags)
  }

  lemma {:induction false} NothingSkipped(t: Tree, tags: set<int>, m: Measure)
    requires GroupsFree(t, tags) && m.Skips() <= tags
    ensures TallyEntries(t.groups, m, Skipped) == 0
    decreases t
  {
    NothingSkippedInEntries(t.groups, tags, m);
  }

  lemma {:induction false} NothingSkippedInEntries(es: seq<Entry>, tags: set<int>, m: Measure)
    requires forall e, g :: e in es && g in e.groups ==> Free(g, tags)
    requires m.Skips() <= tags
    ensures TallyEntries(es, m, Skipped) == 0
    decreases es
  {
    if es != [] {
      assert es[0] in es;
      NothingSkippedInGroups(es[0].groups, tags, m);
      NothingSkippedInEntries(es[1..], tags, m);
    }
  }

  lemma {:induction false} NothingSkippedInGroups(gs: seq<Tree>, tags: set<int>, m: Measure)
    requires forall g :: g in gs ==> Free(g, tags)
    requires m.Skips() <= tags
    ensures TallyGroups(gs, m, Skipped) == 0
    decreases gs
  {
    if gs != [] {
      assert gs[0] in gs;
      NoneSkipped(gs[0].fields, m, m.Skips());
      NothingSkipped(gs[0], tags, m);
      NothingSkippedInGroups(gs[1..], tags, m);
    }
  }

  lemma {:induction false} NoneSkipped(fields: seq<Field>, m: Measure, skips: set<int>)
    requires forall f :: f in fields ==> f.tag !in skips
    ensures TallyFields(fields, m, Skipped, skips) == 0
  {
    if fields != [] {
      NoneSkipped(fields[1..], m, skips);
    }
  }

  /** Nothing skipped: the calculation is the measure of the whole encoding. */
  lemma FreeMeasure(t: Tree, m: Measure)
    requires Balanced(t) && Free(t, Length.Skips())
    ensures m.Of(Encoding(t)) == Tally(t, m, Kept, m.Skips())
  {
    EncodingMeasure(t, m, m.Skips());
    NothingSkipped(t, Length.Skips(), m);
    NoneSkipped(t.fields, m, m.Skips());
  }
}
