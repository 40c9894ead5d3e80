/** A message as text: body length and checksum are calculated, set in the header and the
    trailer, and proved to describe the very bytes that come out. */
module MessageTexts {
  import opened Decimal
  import opened Fields
  import opened MessageOrder
  import opened FieldMaps
  import opened FieldTrees
  import opened Sequences
  import opened Extractions
  import I = IntConvertor

  const FRAME: set<int> := {BEGIN_STRING, BODY_LENGTH, CHECK_SUM}

  /** CheckSumConvertor: always three digits. */
  function ThreeDigits(n: nat): (s: seq<byte>)
    requires n < 256
    ensures |s| == 3 && AllDigits(s) && Value(s) == n
  {
    DigitsLength(n, 3);
    assert Pow10(3) == 1000 by {
      assert Pow10(2) == 10 * Pow10(1) && Pow10(1) == 10 * Pow10(0);
    }
    ValueOfZeros(3 - |Digits(n)|, Digits(n));
    ValueOfDigits(n);
    PadTo(Text(n), 3, ZERO)
  }

  function CheckSumField(tag: int, n: nat): Field
    requires n < 256
  {
    Field(tag, ThreeDigits(n))
  }

  /** The tags that toString is called with, and those that it is called with by default. */
  datatype Tags = Tags(beginString: int, bodyLength: int, checkSum: int) {
    function All(): set<int> {
      {beginString, bodyLength, checkSum}
    }

    predicate Fit() {
      IsTag(bodyLength) && IsTag(checkSum)
    }
  }

  const DEFAULT := Tags(BEGIN_STRING, BODY_LENGTH, CHECK_SUM)

  function BodyLengthOf(h: Tree, b: Tree, t: Tree, skips: set<int>): nat {
    Tally(h, Length, Kept, skips) + Tally(b, Length, Kept, skips) + Tally(t, Length, Kept, skips)
  }

  function TotalOf(h: Tree, b: Tree, t: Tree, checkSum: int): nat {
    Tally(h, Sum, Kept, {checkSum}) + Tally(b, Sum, Kept, {checkSum}) + Tally(t, Sum, Kept, {checkSum})
  }

  function CheckSumOf(h: Tree, b: Tree, t: Tree, checkSum: int): nat {
    TotalOf(h, b, t, checkSum) % 256
  }

  /** setField on a part of a message. */
  function With(t: Tree, f: Field): Tree {
    t.(fields := SetIn(t.order, t.fields, f, true))
  }

  /** toString sets the body length first; the checksum covers it. */
  function FramedHeader(h: Tree, b: Tree, t: Tree, tags: Tags): Tree {
    With(h, CountField(tags.bodyLength, BodyLengthOf(h, b, t, tags.All())))
  }

  function FramedTrailer(h: Tree, b: Tree, t: Tree, tags: Tags): Tree {
    With(t, CheckSumField(tags.checkSum, CheckSumOf(FramedHeader(h, b, t, tags), b, t, tags.checkSum)))
  }

  class Message {
    const header: FieldMap
    const body: FieldMap
    const trailer: FieldMap

    constructor (header: FieldMap, body: FieldMap, trailer: FieldMap)
      ensures this.header == header && this.body == body && this.trailer == trailer
    {
      this.header, this.body, this.trailer := header, body, trailer;
    }

    ghost predicate Valid()
      reads header, body, trailer
    {
      && header != body && header != trailer && body != trailer
      && header.Sorted() && body.Sorted() && trailer.Sorted()
      && TagsFit(header.Value()) && TagsFit(body.Value()) && TagsFit(trailer.Value())
    }

    method BodyLength(tags: Tags) returns (n: nat)
      requires Valid()
      ensures n == BodyLengthOf(header.Value(), body.Value(), trailer.Value(), tags.All())
    {
      var l1 := CalculateLength(header.Value(), tags.beginString, tags.bodyLength, tags.checkSum);
      var l2 := CalculateLength(body.Value(), tags.beginString, tags.bodyLength, tags.checkSum);
      var l3 := CalculateLength(trailer.Value(), tags.beginString, tags.bodyLength, tags.checkSum);
      n := l1 + l2 + l3;
    }

    method CheckSum(checkSum: int) returns (n: nat)
      requires Valid()
      ensures n == CheckSumOf(header.Value(), body.Value(), trailer.Value(), checkSum)
    {
      var t1 := CalculateTotal(header.Value(), checkSum);
      var t2 := CalculateTotal(body.Value(), checkSum);
      var t3 := CalculateTotal(trailer.Value(), checkSum);
      n := (t1 + t2 + t3) % 256;
    }

    /** m_header.setField(IntField(bodyLengthField, length)) */
    method SetBodyLength(tags: Tags)
      requires Valid() && tags.Fit()
      modifies header`fields
      ensures Valid()
      ensures header.Value() == old(FramedHeader(header.Value(), body.Value(), trailer.Value(), tags))
    {
      var length := BodyLength(tags);
      SetPart(header, CountField(tags.bodyLength, length));
    }

    /** m_trailer.setField(CheckSumField(checkSumField, checkSum)) */
    method SetCheckSum(checkSum: int)
      requires Valid() && IsTag(checkSum)
      modifies trailer`fields
      ensures Valid()
      ensures trailer.Value()
           == old(With(trailer.Value(),
                       CheckSumField(checkSum, CheckSumOf(header.Value(), body.Value(), trailer.Value(), checkSum))))
    {
      var total := CheckSum(checkSum);
      SetPart(trailer, CheckSumField(checkSum, total));
    }

    method Write() returns (s: seq<byte>)
      requires Valid()
      ensures s == Encoding(header.Value()) + Encoding(body.Value()) + Encoding(trailer.Value())
    {
      s := WriteParts(header.Value(), body.Value(), trailer.Value());
    }

    /** toString */
    method ToString(tags: Tags) returns (s: seq<byte>)
      requires Valid() && tags.Fit()
      modifies header`fields, trailer`fields
      ensures Valid()
      ensures s == old(ToText(header.Value(), body.Value(), trailer.Value(), tags))
    {
      SetBodyLength(tags);
      SetCheckSum(tags.checkSum);
      s := Write();
    }
  }

  /** The text that a message becomes. */
  function ToText(h: Tree, b: Tree, t: Tree, tags: Tags): seq<byte> {
    Encoding(FramedHeader(h, b, t, tags)) + Encoding(b) + Encoding(FramedTrailer(h, b, t, tags))
  }

  method SetPart(part: FieldMap, f: Field)
    requires part.Sorted() && TagsFit(part.Value()) && IsTag(f.tag)
    modifies part`fields
    ensures part.Sorted() && TagsFit(part.Value()) && part.Value() == With(old(part.Value()), f)
  {
    SetKeeps(part.Value(), f);
    part.SetField(f, true);
  }

  lemma SetKeeps(t: Tree, f: Field)
    requires TagsFit(t) && IsTag(f.tag) && SortedBy(t.order, t.fields)
    ensures TagsFit(With(t, f)) && SortedBy(t.order, With(t, f).fields)
  {
    SetKeepsSorted(t.order, t.fields, f, true);
    PlacedKeepsSorted(t.order, t.fields, f);
  }

  // ----- a message that can be framed

  /** What toString is given: the begin string in the header, at most one body length there
      and one checksum in the trailer, none of them elsewhere or in groups, and all groups
      counted once. */
  ghost predicate WellFormed(h: Tree, b: Tree, t: Tree) {
    && h.order == Header && SortedBy(Header, h.fields) && Balanced(h) && OutsideGroups(h)
    && Count(h.fields, BEGIN_STRING) == 1 && Count(h.fields, BODY_LENGTH) <= 1 && Count(h.fields, CHECK_SUM) == 0
    && Balanced(b) && Free(b, FRAME)
    && t.order == Trailer && SortedBy(Trailer, t.fields) && Balanced(t) && OutsideGroups(t)
    && Count(t.fields, BEGIN_STRING) == 0 && Count(t.fields, BODY_LENGTH) == 0 && Count(t.fields, CHECK_SUM) <= 1
  }

  /** No groups under the framing tags, none of these within groups. */
  ghost predicate OutsideGroups(t: Tree) {
    GroupsFree(t, FRAME) && forall e :: e in t.groups ==> e.tag !in FRAME
  }

  // ----- the calculation ignores the fields that it does not cover

  lemma {:induction false} PlacedUncovered(order: Order, fields: seq<Field>, f: Field, m: Measure, skips: set<int>)
    requires f.tag in skips
    ensures TallyFields(Placed(order, fields, f), m, Kept, skips) == TallyFields(fields, m, Kept, skips)
  {
    if fields == [] || Precedes(order, f.tag, fields[0].tag) {
      assert ([f] + fields)[1..] == fields;
    } else {
      PlacedUncovered(order, fields[1..], f, m, skips);
      assert Placed(order, fields, f)[1..] == Placed(order, fields[1..], f);
    }
  }

  lemma {:induction false} UpdateUncovered(fields: seq<Field>, i: nat, f: Field, m: Measure, skips: set<int>)
    requires i < |fields| && fields[i].tag == f.tag && f.tag in skips
    ensures TallyFields(fields[i := f], m, Kept, skips) == TallyFields(fields, m, Kept, skips)
  {
    if i > 0 {
      UpdateUncovered(fields[1..], i - 1, f, m, skips);
      assert fields[i := f][1..] == fields[1..][i - 1 := f];
    } else {
      assert fields[0 := f][1..] == fields[1..];
    }
  }

  lemma WithUncovered(t: Tree, f: Field, m: Measure, skips: set<int>)
    requires f.tag in skips
    ensures Tally(With(t, f), m, Kept, skips) == Tally(t, m, Kept, skips)
  {
    var i := First(t.fields, f.tag);
    if i < |t.fields| {
      UpdateUncovered(t.fields, i, f, m, skips);
      assert t.fields[i].(value := f.value) == f;
    } else {
      PlacedUncovered(t.order, t.fields, f, m, skips);
    }
  }

  method WriteParts(h: Tree, b: Tree, t: Tree) returns (s: seq<byte>)
    requires TagsFit(h) && TagsFit(b) && TagsFit(t)
    ensures s == Encoding(h) + Encoding(b) + Encoding(t)
  {
    var s1 := CalculateString(h, []);
    assert s1 == Encoding(h);
    var s2 := CalculateString(b, s1);
    s := CalculateString(t, s2);
  }

  // ----- where the framing fields are

  lemma {:induction false} CountIs(fields: seq<Field>, tag: int)
    ensures Count(fields, tag) == 0 <==> forall f :: f in fields ==> f.tag != tag
  {
    if fields != [] {
      CountIs(fields[1..], tag);
      assert forall f :: f in fields <==> f == fields[0] || f in fields[1..];
    }
  }

  lemma NotBefore(order: Order, fields: seq<Field>, i: nat, j: nat)
    requires SortedBy(order, fields) && i <= j < |fields|
    ensures fields[i] in fields && fields[j] in fields && !Precedes(order, fields[j].tag, fields[i].tag)
  {
    StrictTotalOrder(order, fields[i].tag, fields[i].tag, fields[i].tag);
  }

  lemma TwoCounted(fields: seq<Field>, i: nat, j: nat)
    requires i < j < |fields| && fields[i].tag == fields[j].tag
    ensures Count(fields, fields[i].tag) >= 2
  {
    TakeOutCount(fields, i, fields[i].tag);
    CountIs(RemoveAt(fields, i), fields[i].tag);
    assert RemoveAt(fields, i)[j - 1] == fields[j];
  }

  /** The one field whose tag comes before all others is the first. */
  lemma Foremost(order: Order, fields: seq<Field>, tag: int)
    requires SortedBy(order, fields) && Count(fields, tag) == 1
    requires forall f :: f in fields ==> f.tag == tag || Precedes(order, tag, f.tag)
    ensures fields[0].tag == tag && forall f :: f in fields[1..] ==> f.tag != tag
  {
    var i := First(fields, tag);
    CountNone(fields, tag);
    NotBefore(order, fields, 0, i);
    CountIs(fields[1..], tag);
  }

  /** The one field whose tag comes after all others is the last. */
  lemma Hindmost(order: Order, fields: seq<Field>, tag: int)
    requires SortedBy(order, fields) && Count(fields, tag) == 1
    requires forall f :: f in fields ==> f.tag == tag || Precedes(order, f.tag, tag)
    ensures fields[|fields| - 1].tag == tag && forall f :: f in fields[..|fields| - 1] ==> f.tag != tag
  {
    var n := |fields| - 1;
    var i := First(fields, tag);
    CountNone(fields, tag);
    NotBefore(order, fields, i, n);
    assert RemoveAt(fields, n) == fields[..n];
    TakeOutCount(fields, n, tag);
    CountIs(fields[..n], tag);
  }

  ghost predicate FreeFields(fields: seq<Field>) {
    forall f :: f in fields ==> f.tag !in FRAME
  }

  /** The header's first fields are the begin string and the body length. */
  lemma HeaderShape(fields: seq<Field>)
    requires SortedBy(Header, fields)
    requires Count(fields, BEGIN_STRING) == 1 && Count(fields, BODY_LENGTH) == 1 && Count(fields, CHECK_SUM) == 0
    ensures |fields| >= 2 && fields[0].tag == BEGIN_STRING && fields[1].tag == BODY_LENGTH
    ensures FreeFields(fields[2..])
  {
    Foremost(Header, fields, BEGIN_STRING);
    var rest := fields[1..];
    assert Count(rest, BODY_LENGTH) == 1;
    Foremost(Header, rest, BODY_LENGTH);
    assert rest[0] == fields[1] && rest[1..] == fields[2..];
    CountIs(fields, CHECK_SUM);
    forall f | f in fields[2..]
      ensures f.tag !in FRAME
    {
      assert f in rest[1..] && f in rest && f in fields;
    }
  }

  /** The trailer's last field is the checksum. */
  lemma TrailerShape(fields: seq<Field>)
    requires SortedBy(Trailer, fields)
    requires Count(fields, BEGIN_STRING) == 0 && Count(fields, BODY_LENGTH) == 0 && Count(fields, CHECK_SUM) == 1
    ensures fields[|fields| - 1].tag == CHECK_SUM
    ensures FreeFields(fields[..|fields| - 1])
  {
    Hindmost(Trailer, fields, CHECK_SUM);
    CountIs(fields, BEGIN_STRING);
    CountIs(fields, BODY_LENGTH);
  }

  // ----- the encoding around them

  lemma EncodingUnfold(t: Tree, k: nat)
    requires k < |t.fields|
    ensures EncodingFrom(t, k) == Encoded(t.fields[k]) + EncodingUnder(t, t.fields[k].tag) + EncodingFrom(t, k + 1)
  {
  }

  lemma EncodingEnd(t: Tree)
    ensures EncodingFrom(t, |t.fields|) == []
  {
  }

  lemma SameUnder(t: Tree, fields: seq<Field>, tag: int)
    ensures EncodingUnder(t.(fields := fields), tag) == EncodingUnder(t, tag)
  {
  }

  lemma {:induction false} SameTail(t: Tree, k: nat, u: Tree, j: nat)
    requires k <= |t.fields| && j <= |u.fields| && t.fields[k..] == u.fields[j..]
    requires u == t.(fields := u.fields)
    ensures EncodingFrom(t, k) == EncodingFrom(u, j)
    decreases |t.fields| - k
  {
    if k < |t.fields| {
      assert t.fields[k] == t.fields[k..][0] == u.fields[j];
      assert t.fields[k + 1..] == t.fields[k..][1..] == u.fields[j + 1..];
      SameTail(t, k + 1, u, j + 1);
      EncodingUnfold(t, k);
      EncodingUnfold(u, j);
      SameUnder(t, u.fields, t.fields[k].tag);
    } else {
      EncodingEnd(t);
      EncodingEnd(u);
    }
  }

  lemma {:induction false} EncodingOfInit(t: Tree, k: nat)
    requires k < |t.fields|
    ensures
      var n := |t.fields| - 1;
      EncodingFrom(t, k)
        == EncodingFrom(t.(fields := t.fields[..n]), k) + (Encoded(t.fields[n]) + EncodingUnder(t, t.fields[n].tag))
    decreases |t.fields| - k
  {
    var n := |t.fields| - 1;
    var init := t.(fields := t.fields[..n]);
    EncodingUnfold(t, k);
    if k < n {
      EncodingOfInit(t, k + 1);
      EncodingUnfold(init, k);
      SameUnder(t, t.fields[..n], t.fields[k].tag);
      Associative(Encoded(t.fields[k]) + EncodingUnder(t, t.fields[k].tag), EncodingFrom(init, k + 1),
            Encoded(t.fields[n]) + EncodingUnder(t, t.fields[n].tag));
    } else {
      EncodingEnd(t);
      EncodingEnd(init);
    }
  }

  lemma EntryIn(es: seq<Entry>, tag: int)
    ensures Has(es, tag) ==> es[EntryOf(es, tag)] in es
  {
  }

  lemma NoneUnder(t: Tree, tag: int)
    requires OutsideGroups(t) && tag in FRAME
    ensures EncodingUnder(t, tag) == []
  {
    EntryIn(t.groups, tag);
  }

  /** The header after its two framing fields, the trailer before its one. */
  function AfterFrame(h: Tree): Tree {
    if |h.fields| < 2 then h else h.(fields := h.fields[2..])
  }

  function BeforeFrame(t: Tree): Tree {
    if t.fields == [] then t else t.(fields := t.fields[..|t.fields| - 1])
  }

  lemma HeaderText(h: Tree)
    requires OutsideGroups(h) && |h.fields| >= 2
    requires h.fields[0].tag == BEGIN_STRING && h.fields[1].tag == BODY_LENGTH
    ensures Encoding(h) == Encoded(h.fields[0]) + Encoded(h.fields[1]) + Encoding(AfterFrame(h))
  {
    NoneUnder(h, BEGIN_STRING);
    NoneUnder(h, BODY_LENGTH);
    SameTail(h, 2, AfterFrame(h), 0);
    var a, b, c := Encoded(h.fields[0]), Encoded(h.fields[1]), EncodingFrom(h, 2);
    assert EncodingFrom(h, 1) == b + [] + c;
    assert EncodingFrom(h, 0) == a + [] + EncodingFrom(h, 1);
  }

  lemma TrailerText(t: Tree)
    requires OutsideGroups(t) && t.fields != [] && t.fields[|t.fields| - 1].tag == CHECK_SUM
    ensures Encoding(t) == Encoding(BeforeFrame(t)) + Encoded(t.fields[|t.fields| - 1])
  {
    NoneUnder(t, CHECK_SUM);
    EncodingOfInit(t, 0);
  }

  // ----- the frame

  /** Setting the framing field of a part keeps its other counts. */
  lemma WithCounts(t: Tree, f: Field)
    requires SortedBy(t.order, t.fields) && Count(t.fields, f.tag) <= 1
    ensures SortedBy(t.order, With(t, f).fields)
    ensures Count(With(t, f).fields, f.tag) == 1 && ValueOf(With(t, f).fields, f.tag) == Some(f.value)
    ensures forall tag :: tag != f.tag ==> Count(With(t, f).fields, tag) == Count(t.fields, tag)
  {
    SetKeepsSorted(t.order, t.fields, f, true);
    SetCount(t.order, t.fields, f);
    forall tag | tag != f.tag
      ensures Count(With(t, f).fields, tag) == Count(t.fields, tag)
    {
      SetAside(t.order, t.fields, f, true, tag);
    }
  }

  lemma WithKeepsBalanced(t: Tree, f: Field)
    requires SortedBy(t.order, t.fields) && Count(t.fields, f.tag) <= 1
    requires Balanced(t) && OutsideGroups(t) && f.tag in FRAME
    ensures Balanced(With(t, f)) && OutsideGroups(With(t, f))
  {
    WithCounts(t, f);
  }

  /** The parts of a message between the frame. */
  lemma AfterFrameFree(h: Tree)
    requires Balanced(h) && OutsideGroups(h) && |h.fields| >= 2
    requires h.fields[0].tag == BEGIN_STRING && h.fields[1].tag == BODY_LENGTH && FreeFields(h.fields[2..])
    ensures Balanced(AfterFrame(h)) && Free(AfterFrame(h), FRAME)
    ensures Tally(h, Length, Kept, FRAME) == Tally(AfterFrame(h), Length, Kept, FRAME)
    ensures Tally(h, Sum, Kept, {CHECK_SUM})
         == ByteSum(Encoded(h.fields[0])) + ByteSum(Encoded(h.fields[1])) + Tally(AfterFrame(h), Sum, Kept, {CHECK_SUM})
  {
    assert h.fields[1..][1..] == h.fields[2..];
    assert TallyFields(h.fields[1..], Length, Kept, FRAME) == TallyFields(h.fields[2..], Length, Kept, FRAME);
    assert TallyFields(h.fields[1..], Sum, Kept, {CHECK_SUM})
        == ByteSum(Encoded(h.fields[1])) + TallyFields(h.fields[2..], Sum, Kept, {CHECK_SUM});
    forall e | e in h.groups
      ensures Count(h.fields[2..], e.tag) == 1
    {
      assert Count(h.fields, e.tag) == Count(h.fields[1..], e.tag) == Count(h.fields[2..], e.tag);
    }
  }

  lemma {:induction false} TallyOfInit(fields: seq<Field>, m: Measure, skips: set<int>)
    requires fields != [] && fields[|fields| - 1].tag in skips
    ensures TallyFields(fields, m, Kept, skips) == TallyFields(fields[..|fields| - 1], m, Kept, skips)
  {
    if |fields| > 1 {
      TallyOfInit(fields[1..], m, skips);
      assert fields[1..][..|fields| - 2] == fields[..|fields| - 1][1..];
    }
  }

  lemma BeforeFrameFree(t: Tree)
    requires Balanced(t) && OutsideGroups(t) && t.fields != []
    requires t.fields[|t.fields| - 1].tag == CHECK_SUM && FreeFields(t.fields[..|t.fields| - 1])
    ensures Balanced(BeforeFrame(t)) && Free(BeforeFrame(t), FRAME)
    ensures Tally(t, Length, Kept, FRAME) == Tally(BeforeFrame(t), Length, Kept, FRAME)
    ensures Tally(t, Sum, Kept, {CHECK_SUM}) == Tally(BeforeFrame(t), Sum, Kept, {CHECK_SUM})
  {
    var n := |t.fields| - 1;
    TallyOfInit(t.fields, Length, FRAME);
    TallyOfInit(t.fields, Sum, {CHECK_SUM});
    assert RemoveAt(t.fields, n) == t.fields[..n];
    forall e | e in t.groups
      ensures Count(t.fields[..n], e.tag) == 1
    {
      TakeOutCount(t.fields, n, e.tag);
    }
  }

  /** What the frame encloses: everything after the body length and before the checksum. */
  function Enclosed(h: Tree, b: Tree, t: Tree): seq<byte> {
    Encoding(AfterFrame(FramedHeader(h, b, t, DEFAULT))) + Encoding(b) + Encoding(BeforeFrame(FramedTrailer(h, b, t, DEFAULT)))
  }

  lemma ThreeMeasures(a: Tree, b: Tree, c: Tree, m: Measure)
    requires Balanced(a) && Free(a, FRAME) && Balanced(b) && Free(b, FRAME) && Balanced(c) && Free(c, FRAME)
    ensures m.Of(Encoding(a) + Encoding(b) + Encoding(c))
         == Tally(a, m, Kept, m.Skips()) + Tally(b, m, Kept, m.Skips()) + Tally(c, m, Kept, m.Skips())
  {
    m.Concat(Encoding(a) + Encoding(b), Encoding(c));
    m.Concat(Encoding(a), Encoding(b));
    FreeMeasure(a, m);
    FreeMeasure(b, m);
    FreeMeasure(c, m);
  }

  lemma FirstValue(fields: seq<Field>, i: nat, tag: int, value: seq<byte>)
    requires i < |fields| && fields[i].tag == tag && Count(fields, tag) == 1 && ValueOf(fields, tag) == Some(value)
    ensures fields[i] == Field(tag, value)
  {
    var k := First(fields, tag);
    if k < i {
      TwoCounted(fields, k, i);
    }
  }

  /** The framed header: begin string, body length, and a rest that is measured. */
  lemma HeaderFramed(h: Tree, f: Field)
    requires h.order == Header && SortedBy(Header, h.fields) && Balanced(h) && OutsideGroups(h)
    requires Count(h.fields, BEGIN_STRING) == 1 && Count(h.fields, BODY_LENGTH) <= 1 && Count(h.fields, CHECK_SUM) == 0
    requires f.tag == BODY_LENGTH
    ensures
      var h' := With(h, f);
      && |h'.fields| >= 2 && h'.fields[0].tag == BEGIN_STRING && h'.fields[1] == f
      && Encoding(h') == Encoded(h'.fields[0]) + Encoded(f) + Encoding(AfterFrame(h'))
      && Balanced(AfterFrame(h')) && Free(AfterFrame(h'), FRAME)
      && Tally(h, Length, Kept, FRAME) == Tally(AfterFrame(h'), Length, Kept, FRAME)
      && Tally(h', Sum, Kept, {CHECK_SUM})
         == ByteSum(Encoded(h'.fields[0])) + ByteSum(Encoded(f)) + Tally(AfterFrame(h'), Sum, Kept, {CHECK_SUM})
  {
    var h' := With(h, f);
    WithCounts(h, f);
    WithKeepsBalanced(h, f);
    HeaderShape(h'.fields);
    FirstValue(h'.fields, 1, BODY_LENGTH, f.value);
    HeaderText(h');
    AfterFrameFree(h');
    WithUncovered(h, f, Length, FRAME);
  }

  lemma TrailerFramed(t: Tree, f: Field)
    requires t.order == Trailer && SortedBy(Trailer, t.fields) && Balanced(t) && OutsideGroups(t)
    requires Count(t.fields, BEGIN_STRING) == 0 && Count(t.fields, BODY_LENGTH) == 0 && Count(t.fields, CHECK_SUM) <= 1
    requires f.tag == CHECK_SUM
    ensures
      var t' := With(t, f);
      && t'.fields != [] && t'.fields[|t'.fields| - 1] == f
      && Encoding(t') == Encoding(BeforeFrame(t')) + Encoded(f)
      && Balanced(BeforeFrame(t')) && Free(BeforeFrame(t'), FRAME)
      && Tally(t, Length, Kept, FRAME) == Tally(BeforeFrame(t'), Length, Kept, FRAME)
      && Tally(t, Sum, Kept, {CHECK_SUM}) == Tally(BeforeFrame(t'), Sum, Kept, {CHECK_SUM})
  {
    var t' := With(t, f);
    WithCounts(t, f);
    WithKeepsBalanced(t, f);
    TrailerShape(t'.fields);
    FirstValue(t'.fields, |t'.fields| - 1, CHECK_SUM, f.value);
    TrailerText(t');
    BeforeFrameFree(t');
    WithUncovered(t, f, Length, FRAME);
    WithUncovered(t, f, Sum, {CHECK_SUM});
  }

  /** With the default tags a well-formed message becomes: begin string, body length, the bytes
      enclosed, checksum. The body length reads as the number of the bytes enclosed, as far as
      an int can hold it; the checksum is three digits, which denote the sum of all bytes before
      it modulo 256. */
  lemma TextIsFramed(h: Tree, b: Tree, t: Tree)
    requires WellFormed(h, b, t)
    ensures
      var h', t', enclosed := FramedHeader(h, b, t, DEFAULT), FramedTrailer(h, b, t, DEFAULT), Enclosed(h, b, t);
      && |h'.fields| >= 2 && t'.fields != []
      && var begin, length, check := h'.fields[0], h'.fields[1], t'.fields[|t'.fields| - 1];
      && begin.tag == 8 && length.tag == 9 && check.tag == 10
      && ToText(h, b, t, DEFAULT) == Encoded(begin) + Encoded(length) + enclosed + Encoded(check)
      && (|enclosed| <= 0x7FFF_FFFF ==> I.Parsed(I.IntType.Int32, length.value) == Some(|enclosed|))
      && |check.value| == 3 && AllDigits(check.value)
      && Value(check.value) == ByteSum(Encoded(begin) + Encoded(length) + enclosed) % 256
  {
    TextInParts(h, b, t);
    CountFieldReads(BODY_LENGTH, |Enclosed(h, b, t)|);
  }

  lemma TextInParts(h: Tree, b: Tree, t: Tree)
    requires WellFormed(h, b, t)
    ensures
      var h', t' := FramedHeader(h, b, t, DEFAULT), FramedTrailer(h, b, t, DEFAULT);
      && |h'.fields| >= 2 && t'.fields != [] && h'.fields[0].tag == BEGIN_STRING
      && h'.fields[1] == CountField(BODY_LENGTH, |Enclosed(h, b, t)|)
      && var before := Encoded(h'.fields[0]) + Encoded(h'.fields[1]) + Enclosed(h, b, t);
      var check := CheckSumField(CHECK_SUM, ByteSum(before) % 256);
      t'.fields[|t'.fields| - 1] == check && ToText(h, b, t, DEFAULT) == before + Encoded(check)
  {
    assert FRAME == DEFAULT.All();
    var f := CountField(BODY_LENGTH, BodyLengthOf(h, b, t, FRAME));
    var h' := FramedHeader(h, b, t, DEFAULT);
    HeaderFramed(h, f);
    var g := CheckSumField(CHECK_SUM, CheckSumOf(h', b, t, CHECK_SUM));
    var t' := FramedTrailer(h, b, t, DEFAULT);
    TrailerFramed(t, g);
    LengthMatches(h, b, t, AfterFrame(h'), BeforeFrame(t'));
    CheckSumMatches(Encoded(h'.fields[0]), Encoded(f), h', b, t, AfterFrame(h'), BeforeFrame(t'));
    Reassociate(Encoded(h'.fields[0]) + Encoded(f), Encoding(AfterFrame(h')), Encoding(b), Encoding(BeforeFrame(t')), Encoded(g));
  }

  lemma LengthMatches(h: Tree, b: Tree, t: Tree, x: Tree, z: Tree)
    requires Balanced(x) && Free(x, FRAME) && Balanced(b) && Free(b, FRAME) && Balanced(z) && Free(z, FRAME)
    requires Tally(h, Length, Kept, FRAME) == Tally(x, Length, Kept, FRAME)
    requires Tally(t, Length, Kept, FRAME) == Tally(z, Length, Kept, FRAME)
    ensures BodyLengthOf(h, b, t, FRAME) == |Encoding(x) + Encoding(b) + Encoding(z)|
  {
    ThreeMeasures(x, b, z, Length);
    assert FRAME == Length.Skips();
  }

  lemma SumMatches(begin: seq<byte>, length: seq<byte>, h: Tree, b: Tree, t: Tree, x: Tree, z: Tree)
    requires Balanced(x) && Free(x, FRAME) && Balanced(b) && Free(b, FRAME) && Balanced(z) && Free(z, FRAME)
    requires Tally(h, Sum, Kept, {CHECK_SUM}) == ByteSum(begin) + ByteSum(length) + Tally(x, Sum, Kept, {CHECK_SUM})
    requires Tally(t, Sum, Kept, {CHECK_SUM}) == Tally(z, Sum, Kept, {CHECK_SUM})
    ensures TotalOf(h, b, t, CHECK_SUM) == ByteSum(begin + length + (Encoding(x) + Encoding(b) + Encoding(z)))
  {
    ThreeMeasures(x, b, z, Sum);
    SumOfThree(begin, length, Encoding(x) + Encoding(b) + Encoding(z));
  }

  lemma CheckSumMatches(begin: seq<byte>, length: seq<byte>, h: Tree, b: Tree, t: Tree, x: Tree, z: Tree)
    requires Balanced(x) && Free(x, FRAME) && Balanced(b) && Free(b, FRAME) && Balanced(z) && Free(z, FRAME)
    requires Tally(h, Sum, Kept, {CHECK_SUM}) == ByteSum(begin) + ByteSum(length) + Tally(x, Sum, Kept, {CHECK_SUM})
    requires Tally(t, Sum, Kept, {CHECK_SUM}) == Tally(z, Sum, Kept, {CHECK_SUM})
    ensures CheckSumOf(h, b, t, CHECK_SUM) == ByteSum(begin + length + (Encoding(x) + Encoding(b) + Encoding(z))) % 256
  {
    SumMatches(begin, length, h, b, t, x, z);
  }

  lemma SumOfThree(a: seq<byte>, b: seq<byte>, c: seq<byte>)
    ensures ByteSum(a + b + c) == ByteSum(a) + ByteSum(b) + ByteSum(c)
  {
    ByteSumConcat(a + b, c);
    ByteSumConcat(a, b);
  }

  lemma Reassociate(a: seq<byte>, b: seq<byte>, c: seq<byte>, d: seq<byte>, e: seq<byte>)
    ensures (a + b) + c + (d + e) == a + (b + c + d) + e
  {
  }

  /** The text of a message is read back as its fields: those of the header with the body
      length, of the body, and of the trailer with the checksum, in this order. */
  lemma TextReadsBack(h: Tree, b: Tree, t: Tree, tags: Tags)
    requires
      Readable(Flat(FramedHeader(h, b, t, tags)) + Flat(b) + Flat(FramedTrailer(h, b, t, tags)))
    ensures
      AllExtracted(ToText(h, b, t, tags), 0)
      == Some(Flat(FramedHeader(h, b, t, tags)) + Flat(b) + Flat(FramedTrailer(h, b, t, tags)))
  {
    var x, y, z := Flat(FramedHeader(h, b, t, tags)), Flat(b), Flat(FramedTrailer(h, b, t, tags));
    FlatIsWritten(FramedHeader(h, b, t, tags));
    FlatIsWritten(b);
    FlatIsWritten(FramedTrailer(h, b, t, tags));
    EncodingsConcat(x + y, z);
    EncodingsConcat(x, y);
    assert ToText(h, b, t, tags)[0..] == ToText(h, b, t, tags);
    EncodingsExtract(ToText(h, b, t, tags), 0, x + y + z);
  }
}
