/** Reading the text of a message back, field by field, without a dictionary; and the bytes
    that the reader steps over, which are kept count of. */
module Extractions {
  import opened Decimal
  import opened Sequences
  import opened Fields
  import opened MessageOrder
  import opened FieldMaps
  import opened FieldTrees
  import I = IntConvertor

  /** i is the first place of b in s, from a place on and before another; the latter if there
      is none. */
  predicate FirstAt(s: seq<byte>, b: byte, from: nat, end: nat, i: nat)
    requires end <= |s|
  {
    from <= i <= end && (i < end ==> s[i] == b) && forall j :: from <= j < i ==> s[j] != b
  }

  lemma {:induction false} HasFirst(s: seq<byte>, b: byte, from: nat, end: nat) returns (i: nat)
    requires from <= end <= |s|
    ensures FirstAt(s, b, from, end, i)
    decreases end - from
  {
    i := from;
    if from < end && s[from] != b {
      i := HasFirst(s, b, from + 1, end);
    }
  }

  /** std::find */
  ghost function Find(s: seq<byte>, b: byte, from: nat, end: nat): (i: nat)
    requires from <= end <= |s|
    ensures FirstAt(s, b, from, end, i)
  {
    assert exists i: nat :: FirstAt(s, b, from, end, i) by {
      var i := HasFirst(s, b, from, end);
    }
    var i: nat :| FirstAt(s, b, from, end, i);
    i
  }

  lemma FindIs(s: seq<byte>, b: byte, from: nat, end: nat, i: nat)
    requires from <= end <= |s| && FirstAt(s, b, from, end, i)
    ensures Find(s, b, from, end) == i
  {
    var k := Find(s, b, from, end);
    assert FirstAt(s, b, from, end, k);
  }

  /** A field, and the place behind it; or an exception. */
  datatype Extraction = Failed | Got(field: Field, next: nat)

  /** The field that begins at pos: it ends at the next SOH, and its tag at the first equals
      sign before that. What has no equals sign is no field and is passed over. */
  ghost function Extracted(s: seq<byte>, pos: nat): (r: Extraction)
    requires pos <= |s|
    ensures r.Got? ==> pos < r.next <= |s|
    decreases |s| - pos
  {
    var soh := Find(s, SOH, pos, |s|);
    var eq := Find(s, EQUALS, pos, soh);
    if soh == |s| then Failed
    else if eq == soh then Extracted(s, soh + 1)
    else FieldOf(s, pos, eq, soh)
  }

  /** The field with the equals sign and the SOH at these places. */
  function FieldOf(s: seq<byte>, pos: nat, eq: nat, soh: nat): Extraction
    requires pos <= eq < soh < |s|
  {
    var tag := I.Parsed(I.IntType.Int32, s[pos..eq]);
    if tag.None? then Failed else Got(Field(tag.value, s[eq + 1..soh]), soh + 1)
  }

  /** All fields from pos on; None for an exception. */
  ghost function AllExtracted(s: seq<byte>, pos: nat): Option<seq<Field>>
    requires pos <= |s|
    decreases |s| - pos
  {
    if pos == |s| then Some([])
    else
      var r := Extracted(s, pos);
      if r.Failed? then None else Followed([r.field], AllExtracted(s, r.next))
  }

  /** What was read, and what is read after it. */
  function Followed(done: seq<Field>, later: Option<seq<Field>>): Option<seq<Field>> {
    if later.None? then None else Some(done + later.value)
  }

  // ----- what is written is read

  /** The field f is written from pos on. */
  predicate WrittenAt(s: seq<byte>, pos: nat, f: Field) {
    pos + |Encoded(f)| <= |s| && s[pos..pos + |Encoded(f)|] == Encoded(f)
  }

  lemma PlacesOf(s: seq<byte>, pos: nat, f: Field)
    requires WrittenAt(s, pos, f) && SOH !in f.value
    ensures
      var n, k := pos + |Text(f.tag)|, pos + |Encoded(f)| - 1;
      && n < k && s[pos..n] == Text(f.tag) && s[n + 1..k] == f.value
      && FirstAt(s, SOH, pos, |s|, k) && FirstAt(s, EQUALS, pos, k, n)
  {
    var e, m := Encoded(f), |Text(f.tag)|;
    var n, k := pos + m, pos + |e| - 1;
    TextIsPlain(f.tag);
    BytesOf(f);
    forall j | pos <= j <= k
      ensures s[j] == e[j - pos]
    {
      assert s[j] == s[pos..pos + |e|][j - pos];
    }
    assert s[pos..n] == e[..m] && s[n + 1..k] == e[m + 1..|e| - 1];
  }

  lemma BytesOf(f: Field)
    requires SOH !in f.value
    ensures
      var e, m := Encoded(f), |Text(f.tag)|;
      && m < |e| - 1 && e[..m] == Text(f.tag) && e[m] == EQUALS && e[m + 1..|e| - 1] == f.value && e[|e| - 1] == SOH
      && (forall j :: 0 <= j < m ==> e[j] != EQUALS) && forall j :: 0 <= j < |e| - 1 ==> e[j] != SOH
  {
    var e, m := Encoded(f), |Text(f.tag)|;
    TextIsPlain(f.tag);
    assert forall j :: 0 <= j < m ==> e[j] == Text(f.tag)[j];
    assert forall j :: m < j < |e| - 1 ==> e[j] == f.value[j - m - 1];
  }

  lemma TextIsPlain(t: int)
    ensures forall i :: 0 <= i < |Text(t)| ==> Text(t)[i] != SOH && Text(t)[i] != EQUALS
  {
    assert t < 0 ==> Text(t)[1..] == Digits(-t);
  }

  /** A field is read back from where it is written, whatever follows, if and only if its
      value has no SOH. */
  lemma FieldExtracts(s: seq<byte>, pos: nat, f: Field)
    requires IsTag(f.tag) && WrittenAt(s, pos, f)
    ensures Extracted(s, pos) == Got(f, pos + |Encoded(f)|) <==> SOH !in f.value
  {
    if SOH !in f.value {
      CleanFieldExtracts(s, pos, f);
    } else {
      ExtractedHasNoSOH(s, pos);
    }
  }

  lemma CleanFieldExtracts(s: seq<byte>, pos: nat, f: Field)
    requires IsTag(f.tag) && WrittenAt(s, pos, f) && SOH !in f.value
    ensures Extracted(s, pos) == Got(f, pos + |Encoded(f)|)
  {
    var n, k := pos + |Text(f.tag)|, pos + |Encoded(f)| - 1;
    PlacesOf(s, pos, f);
    ExtractedAt(s, pos, n, k);
    FieldThere(s, pos, n, k, f);
  }

  lemma ExtractedAt(s: seq<byte>, pos: nat, eq: nat, soh: nat)
    requires pos <= eq < soh < |s| && FirstAt(s, SOH, pos, |s|, soh) && FirstAt(s, EQUALS, pos, soh, eq)
    ensures Extracted(s, pos) == FieldOf(s, pos, eq, soh)
  {
    FindIs(s, SOH, pos, |s|, soh);
    FindIs(s, EQUALS, pos, soh, eq);
  }

  lemma FieldThere(s: seq<byte>, pos: nat, eq: nat, soh: nat, f: Field)
    requires pos <= eq < soh < |s| && IsTag(f.tag) && s[pos..eq] == Text(f.tag) && s[eq + 1..soh] == f.value
    ensures FieldOf(s, pos, eq, soh) == Got(f, soh + 1)
  {
    I.ParsePrint(I.IntType.Int32, f.tag);
  }

  lemma {:induction false} ExtractedHasNoSOH(s: seq<byte>, pos: nat)
    requires pos <= |s|
    ensures Extracted(s, pos).Got? ==> SOH !in Extracted(s, pos).field.value
    decreases |s| - pos
  {
    var soh := Find(s, SOH, pos, |s|);
    if soh < |s| && Find(s, EQUALS, pos, soh) == soh {
      ExtractedHasNoSOH(s, soh + 1);
    }
  }

  /** The fields of a tree in the order of its text. */
  function Flat(t: Tree): seq<Field>
    decreases t, |t.fields| + 1
  {
    FlatFrom(t, 0)
  }

  function FlatFrom(t: Tree, k: nat): seq<Field>
    requires k <= |t.fields|
    decreases t, |t.fields| - k
  {
    if k == |t.fields| then [] else [t.fields[k]] + FlatUnder(t, t.fields[k].tag) + FlatFrom(t, k + 1)
  }

  function FlatUnder(t: Tree, tag: int): seq<Field>
    decreases t, 0
  {
    if Has(t.groups, tag) then FlatGroups(t.groups[EntryOf(t.groups, tag)].groups) else []
  }

  function FlatGroups(gs: seq<Tree>): seq<Field>
    decreases gs
  {
    if gs == [] then [] else Flat(gs[0]) + FlatGroups(gs[1..])
  }

  /** A text of fields. */
  function Encodings(fs: seq<Field>): seq<byte> {
    if fs == [] then [] else Encoded(fs[0]) + Encodings(fs[1..])
  }

  lemma {:induction false} EncodingsConcat(a: seq<Field>, b: seq<Field>)
    ensures Encodings(a + b) == Encodings(a) + Encodings(b)
  {
    if a == [] {
      assert a + b == b;
    } else {
      assert (a + b)[1..] == a[1..] + b;
      EncodingsConcat(a[1..], b);
      Associative(Encoded(a[0]), Encodings(a[1..]), Encodings(b));
    }
  }

  lemma {:induction false} FlatIsWritten(t: Tree)
    ensures Encodings(Flat(t)) == Encoding(t)
    decreases t, |t.fields| + 1
  {
    FlatFromIsWritten(t, 0);
  }

  lemma {:induction false} FlatFromIsWritten(t: Tree, k: nat)
    requires k <= |t.fields|
    ensures Encodings(FlatFrom(t, k)) == EncodingFrom(t, k)
    decreases t, |t.fields| - k
  {
    if k < |t.fields| {
      var f := t.fields[k];
      FlatUnderIsWritten(t, f.tag);
      FlatFromIsWritten(t, k + 1);
      OneEncoded(f);
      EncodingsConcat([f] + FlatUnder(t, f.tag), FlatFrom(t, k + 1));
      EncodingsConcat([f], FlatUnder(t, f.tag));
    }
  }

  lemma OneEncoded(f: Field)
    ensures Encodings([f]) == Encoded(f)
  {
    assert Encodings([f][1..]) == [];
  }

  lemma {:induction false} FlatUnderIsWritten(t: Tree, tag: int)
    ensures Encodings(FlatUnder(t, tag)) == EncodingUnder(t, tag)
    decreases t, 0
  {
    if Has(t.groups, tag) {
      FlatGroupsAreWritten(t.groups[EntryOf(t.groups, tag)].groups);
    }
  }

  lemma {:induction false} FlatGroupsAreWritten(gs: seq<Tree>)
    ensures Encodings(FlatGroups(gs)) == EncodingOfGroups(gs)
    decreases gs
  {
    if gs != [] {
      FlatIsWritten(gs[0]);
      FlatGroupsAreWritten(gs[1..]);
      EncodingsConcat(Flat(gs[0]), FlatGroups(gs[1..]));
    }
  }

  ghost predicate Readable(fs: seq<Field>) {
    forall f :: f in fs ==> IsTag(f.tag) && SOH !in f.value
  }

  /** The fields are written from pos to the end. */
  predicate AllWrittenAt(s: seq<byte>, pos: nat, fs: seq<Field>) {
    pos <= |s| && s[pos..] == Encodings(fs)
  }

  lemma FirstWrittenAt(s: seq<byte>, pos: nat, fs: seq<Field>)
    requires AllWrittenAt(s, pos, fs) && fs != []
    ensures WrittenAt(s, pos, fs[0]) && AllWrittenAt(s, pos + |Encoded(fs[0])|, fs[1..])
  {
    var e := Encoded(fs[0]);
    assert s[pos..][..|e|] == e && s[pos..][|e|..] == Encodings(fs[1..]);
    assert s[pos..][..|e|] == s[pos..pos + |e|] && s[pos..][|e|..] == s[pos + |e|..];
  }

  lemma FirstRead(s: seq<byte>, pos: nat, fs: seq<Field>)
    requires Readable(fs) && AllWrittenAt(s, pos, fs) && fs != []
    ensures var next := pos + |Encoded(fs[0])|;
      pos < |s| && Extracted(s, pos) == Got(fs[0], next) && AllWrittenAt(s, next, fs[1..])
  {
    FirstWrittenAt(s, pos, fs);
    FieldExtracts(s, pos, fs[0]);
  }

  lemma NothingWritten(s: seq<byte>, pos: nat)
    requires AllWrittenAt(s, pos, [])
    ensures pos == |s|
  {
    assert |s[pos..]| == 0;
  }

  lemma {:induction false} EncodingsExtract(s: seq<byte>, pos: nat, fs: seq<Field>)
    requires Readable(fs) && AllWrittenAt(s, pos, fs)
    ensures AllExtracted(s, pos) == Some(fs)
    decreases |fs|
  {
    if fs == [] {
      NothingWritten(s, pos);
    } else {
      var next := pos + |Encoded(fs[0])|;
      FirstRead(s, pos, fs);
      EncodingsExtract(s, next, fs[1..]);
      FirstAndLater(fs);
      FirstExtracted(s, pos, fs[0], next, fs[1..], fs);
    }
  }

  lemma FirstAndLater(fs: seq<Field>)
    requires fs != []
    ensures fs == [fs[0]] + fs[1..]
  {
  }

  lemma FirstExtracted(s: seq<byte>, pos: nat, f: Field, next: nat, later: seq<Field>, fs: seq<Field>)
    requires pos < |s| && Extracted(s, pos) == Got(f, next) && AllExtracted(s, next) == Some(later) && fs == [f] + later
    ensures AllExtracted(s, pos) == Some(fs)
  {
  }

  /** The fields of a message are read back from its text, those of groups among them, in the
      order in which they were written. */
  lemma EncodingExtracts(t: Tree)
    requires Readable(Flat(t))
    ensures AllExtracted(Encoding(t), 0) == Some(Flat(t))
  {
    FlatIsWritten(t);
    assert Encoding(t)[0..] == Encoding(t);
    EncodingsExtract(Encoding(t), 0, Flat(t));
  }

  // ----- the reader

  /** A numeral without a needless zero is the one that is printed. */
  lemma {:induction false} NoLeadingZero(s: seq<byte>)
    requires AllDigits(s) && s != [] && (|s| == 1 || s[0] != ZERO)
    ensures Digits(Value(s)) == s && (s[0] != ZERO ==> Value(s) >= 1)
  {
    var n := |s| - 1;
    var most, d := s[..n], s[n] - 48;
    if n == 0 {
      assert Value(most) == 0;
    } else {
      NoLeadingZero(most);
      LastDigit(Value(most), d);
      assert s == most + [48 + d];
    }
  }

  lemma LastDigit(q: nat, d: nat)
    requires q >= 1 && d <= 9
    ensures Digits(10 * q + d) == Digits(q) + [48 + d]
  {
    assert (10 * q + d) / 10 == q && (10 * q + d) % 10 == d;
  }

  /** A tag is in need of another text only if it has a needless zero or a minus sign. */
  lemma PlainTag(s: seq<byte>)
    requires s != [] && I.Parsed(I.IntType.Int32, s).Some? && !(s[0] == ZERO && |s| > 1) && s[0] != MINUS
    ensures Text(I.Parsed(I.IntType.Int32, s).value) == s
  {
    NoLeadingZero(s);
  }

  lemma PlainField(s: seq<byte>, pos: nat, eq: nat, soh: nat, f: Field)
    requires pos <= eq < soh < |s| && s[eq] == EQUALS && s[soh] == SOH
    requires FieldOf(s, pos, eq, soh) == Got(f, soh + 1) && !(s[pos] == ZERO && eq - pos > 1) && s[pos] != MINUS
    ensures Encoded(f) == s[pos..soh + 1] && |Encoded(f)| == soh + 1 - pos
    ensures ByteSum(Encoded(f)) == ByteSum(s[pos..soh + 1])
  {
    TagIsThere(s[pos..eq]);
    PlainTag(s[pos..eq]);
    FourParts(s, pos, eq, soh);
  }

  lemma TagIsThere(s: seq<byte>)
    requires I.Parsed(I.IntType.Int32, s).Some?
    ensures s != []
  {
  }

  lemma FourParts(s: seq<byte>, pos: nat, eq: nat, soh: nat)
    requires pos <= eq < soh < |s|
    ensures s[pos..soh + 1] == s[pos..eq] + [s[eq]] + s[eq + 1..soh] + [s[soh]]
  {
  }

  /** An orphan begins at pos: a piece that ends with SOH and has no equals sign. */
  ghost predicate StartsOrphan(s: seq<byte>, pos: nat)
    requires pos <= |s|
  {
    var soh := Find(s, SOH, pos, |s|);
    soh < |s| && Find(s, EQUALS, pos, soh) == soh
  }

  /** Only orphans are between pos and next. */
  ghost predicate OrphansOnly(s: seq<byte>, pos: nat, next: nat)
    requires pos <= |s|
    decreases |s| - pos
  {
    pos == next || (StartsOrphan(s, pos) && OrphansOnly(s, Find(s, SOH, pos, |s|) + 1, next))
  }

  lemma {:induction false} OrphansPassed(s: seq<byte>, pos: nat, next: nat)
    requires pos <= |s| && OrphansOnly(s, pos, next)
    ensures pos <= next <= |s| && Extracted(s, pos) == Extracted(s, next)
    decreases |s| - pos
  {
    if pos != next {
      OrphansPassed(s, Find(s, SOH, pos, |s|) + 1, next);
    }
  }

  lemma StartIs(s: seq<byte>, pos: nat, eq: nat, soh: nat)
    requires pos <= eq <= soh && Located(s, pos, eq, soh)
    ensures StartsOrphan(s, pos) <==> soh < |s| && eq == soh
  {
    FindIs(s, SOH, pos, |s|, soh);
    FindIs(s, EQUALS, pos, soh, eq);
  }

  /** The places of the next SOH and of the equals sign before it. */
  predicate Located(s: seq<byte>, next: nat, eq: nat, soh: nat) {
    soh <= |s| && FirstAt(s, SOH, next, |s|, soh) && FirstAt(s, EQUALS, next, soh, eq)
  }

  lemma {:induction false} OneOrphanMore(s: seq<byte>, pos: nat, next: nat, soh: nat)
    requires pos <= |s| && OrphansOnly(s, pos, next)
    requires next <= soh < |s| && Located(s, next, soh, soh)
    ensures OrphansOnly(s, pos, soh + 1)
    decreases |s| - pos
  {
    if pos == next {
      FindIs(s, SOH, next, |s|, soh);
      FindIs(s, EQUALS, next, soh, soh);
    } else {
      OneOrphanMore(s, Find(s, SOH, pos, |s|) + 1, next, soh);
    }
  }

  /** Behind the orphans there is a field, or no SOH any more. */
  lemma FoundBehind(s: seq<byte>, pos: nat, next: nat, eq: nat, soh: nat)
    requires pos <= next <= eq <= soh && Located(s, next, eq, soh) && OrphansOnly(s, pos, next) && (soh < |s| ==> eq < soh)
    ensures Extracted(s, pos) == if soh == |s| then Failed else FieldOf(s, next, eq, soh)
  {
    OrphansPassed(s, pos, next);
    FindIs(s, SOH, next, |s|, soh);
    FindIs(s, EQUALS, next, soh, eq);
  }

  /** The counts that a message keeps while its text is read: the bytes that are in no field's
      own encoding, their sum, and the field before the first of them. */
  class Reader {
    var skippedLength: int
    var skippedTotal: int
    var embeddedTag: int

    constructor ()
      ensures skippedLength == 0 && skippedTotal == 0 && embeddedTag == 0
    {
      skippedLength, skippedTotal, embeddedTag := 0, 0, 0;
    }

    static method FindFrom(s: seq<byte>, b: byte, from: nat, end: nat) returns (i: nat)
      requires from <= end <= |s|
      ensures FirstAt(s, b, from, end, i)
    {
      i := from;
      while i < end && s[i] != b
        invariant from <= i <= end && forall j :: from <= j < i ==> s[j] != b
      {
        i := i + 1;
      }
    }

    static method FindBoth(s: seq<byte>, next: nat) returns (eq: nat, soh: nat)
      requires next <= |s|
      ensures next <= eq <= soh && Located(s, next, eq, soh)
    {
      soh := FindFrom(s, SOH, next, |s|);
      eq := FindFrom(s, EQUALS, next, soh);
    }

    /** The counts, from pos to next, when they began with length, total and tag. */
    ghost predicate Skipped(s: seq<byte>, pos: nat, next: nat, length: int, total: int, tag: int, precedingTag: int)
      requires pos <= next <= |s|
      reads this
    {
      && skippedLength == length + (next - pos) && skippedTotal == total + ByteSum(s[pos..next])
      && embeddedTag == if next > pos && tag == 0 then precedingTag else tag
    }

    /** The part of the loop that an orphan takes. */
    method SkipOrphan(s: seq<byte>, ghost pos: nat, from: nat, soh: nat, precedingTag: int,
                      ghost length: int, ghost total: int, ghost tag: int) returns (next: nat)
      requires pos <= from <= soh < |s| && Skipped(s, pos, from, length, total, tag, precedingTag)
      modifies this
      ensures next == soh + 1 && Skipped(s, pos, next, length, total, tag, precedingTag)
    {
      if embeddedTag == 0 {
        embeddedTag := precedingTag;
      }
      next := soh + 1;
      var sum := AddBytes(0, s[from..next]);
      skippedTotal := skippedTotal + sum;
      skippedLength := skippedLength + (next - from);
      SumOfParts(s, pos, from, next);
    }

    /** The loop of extractField, which ends at a field or where there is no SOH. */
    method SkipOrphans(s: seq<byte>, pos: nat, precedingTag: int) returns (next: nat, eq: nat, soh: nat)
      requires pos <= |s|
      modifies this
      ensures pos <= next <= eq <= soh && Located(s, next, eq, soh) && (soh < |s| ==> eq < soh) && OrphansOnly(s, pos, next)
      ensures Skipped(s, pos, next, old(skippedLength), old(skippedTotal), old(embeddedTag), precedingTag)
      ensures next > pos <==> StartsOrphan(s, pos)
    {
      ghost var length, total, tag := skippedLength, skippedTotal, embeddedTag;
      next := pos;
      eq, soh := FindBoth(s, next);
      StartIs(s, pos, eq, soh);
      ghost var starts := StartsOrphan(s, pos);
      assert s[pos..pos] == [];
      while soh < |s| && eq == soh
        invariant pos <= next <= eq <= soh && Located(s, next, eq, soh) && OrphansOnly(s, pos, next)
        invariant Skipped(s, pos, next, length, total, tag, precedingTag)
        invariant (next > pos ==> starts) && (starts ==> next > pos || (soh < |s| && eq == soh))
        decreases |s| - next
      {
        OneOrphanMore(s, pos, next, soh);
        next := SkipOrphan(s, pos, next, soh, precedingTag, length, total, tag);
        eq, soh := FindBoth(s, next);
      }
    }

    /** The bytes from pos on that are consumed are those of the field's encoding and those that
        have been counted as skipped since the counts were length and total. */
    ghost predicate Accounts(s: seq<byte>, pos: nat, f: Field, next: nat, length: int, total: int)
      requires pos <= next <= |s|
      reads this
    {
      && |Encoded(f)| + skippedLength == length + (next - pos)
      && ByteSum(Encoded(f)) + skippedTotal == total + ByteSum(s[pos..next])
    }

    /** extractField */
    method ExtractField(s: seq<byte>, pos: nat, precedingTag: int) returns (r: Extraction)
      requires pos <= |s|
      modifies this
      ensures r == Extracted(s, pos)
      ensures r.Got? ==> Accounts(s, pos, r.field, r.next, old(skippedLength), old(skippedTotal))
      ensures r.Got? ==> embeddedTag == if old(embeddedTag) == 0 && StartsOrphan(s, pos) then precedingTag else old(embeddedTag)
    {
      ghost var length, total := skippedLength, skippedTotal;
      var start, eq, soh := SkipOrphans(s, pos, precedingTag);
      FoundBehind(s, pos, start, eq, soh);
      if soh == |s| {
        return Failed;
      }
      r := FieldAt(s, start, eq, soh, pos, length, total);
    }

    /** The rest of extractField, with the places of the equals sign and the SOH. */
    method FieldAt(s: seq<byte>, start: nat, eq: nat, soh: nat, ghost pos: nat, ghost length: int, ghost total: int)
      returns (r: Extraction)
      requires pos <= start <= eq < soh < |s| && s[eq] == EQUALS && s[soh] == SOH
      requires skippedLength == length + (start - pos) && skippedTotal == total + ByteSum(s[pos..start])
      modifies this
      ensures r == FieldOf(s, start, eq, soh) && embeddedTag == old(embeddedTag)
      ensures r.Got? ==> Accounts(s, pos, r.field, r.next, length, total)
    {
      var tag := I.Parse(I.IntType.Int32, s[start..eq]);
      if tag.None? {
        return Failed;
      }
      var field := Field(tag.value, s[eq + 1..soh]);
      var longer, heavier := Difference(s, start, eq, soh, field);
      SumOfParts(s, pos, start, soh + 1);
      skippedLength, skippedTotal := skippedLength + longer, skippedTotal + heavier;
      r := Got(field, soh + 1);
    }

    /** By how much the text of a field is longer and heavier than the field's encoding: not at
        all, unless the tag has a needless zero or a minus sign. */
    static method Difference(s: seq<byte>, start: nat, eq: nat, soh: nat, f: Field) returns (longer: int, heavier: int)
      requires start <= eq < soh < |s| && s[eq] == EQUALS && s[soh] == SOH && FieldOf(s, start, eq, soh) == Got(f, soh + 1)
      ensures longer == (soh + 1 - start) - |Encoded(f)|
      ensures heavier == ByteSum(s[start..soh + 1]) - ByteSum(Encoded(f))
    {
      if (s[start] == ZERO && eq - start > 1) || s[start] == MINUS {
        var length: int, total: int := CalculateMetrics(f.tag, f.value);
        var received: int := AddBytes(0, s[start..soh + 1]);
        longer, heavier := soh + 1 - start - length, received - total;
      } else {
        PlainField(s, start, eq, soh, f);
        longer, heavier := 0, 0;
      }
    }

    /** The loop of setString over all fields of a text: its length and byte sum are those of
        the fields and what was skipped, together. */
    method ReadAll(s: seq<byte>) returns (fields: Option<seq<Field>>)
      modifies this
      ensures fields == AllExtracted(s, 0)
      ensures fields.Some? ==> |Encodings(fields.value)| + skippedLength == old(skippedLength) + |s|
      ensures fields.Some? ==> ByteSum(Encodings(fields.value)) + skippedTotal == old(skippedTotal) + ByteSum(s)
    {
      var done, pos, precedingTag := [], 0, 0;
      ghost var length0, total0 := skippedLength, skippedTotal;
      var ok := true;
      assert s[..0] == [];
      NothingBefore(AllExtracted(s, 0));
      while ok && pos < |s|
        invariant pos <= |s|
        invariant AllExtracted(s, 0) == if ok then Followed(done, AllExtracted(s, pos)) else None
        invariant ok ==> |Encodings(done)| + skippedLength == length0 + pos
        invariant ok ==> ByteSum(Encodings(done)) + skippedTotal == total0 + ByteSum(s[..pos])
        decreases ok, |s| - pos
      {
        var r := ExtractField(s, pos, precedingTag);
        if r.Failed? {
          ok := false;
        } else {
          OneFieldMore(done, r.field, AllExtracted(s, r.next));
          SumOfParts(s, 0, pos, r.next);
          done, precedingTag, pos := done + [r.field], r.field.tag, r.next;
        }
      }
      assert ok ==> s[..pos] == s && done + [] == done;
      fields := if ok then Some(done) else None;
    }
  }

  lemma NothingBefore(later: Option<seq<Field>>)
    ensures Followed([], later) == later
  {
    assert later.Some? ==> [] + later.value == later.value;
  }

  lemma OneFieldMore(done: seq<Field>, f: Field, later: Option<seq<Field>>)
    ensures Followed(done, Followed([f], later)) == Followed(done + [f], later)
    ensures |Encodings(done + [f])| == |Encodings(done)| + |Encoded(f)|
    ensures ByteSum(Encodings(done + [f])) == ByteSum(Encodings(done)) + ByteSum(Encoded(f))
  {
    assert later.Some? ==> done + ([f] + later.value) == done + [f] + later.value;
    EncodingsConcat(done, [f]);
    OneEncoded(f);
    ByteSumConcat(Encodings(done), Encoded(f));
  }

  lemma SumOfParts(s: seq<byte>, a: nat, b: nat, c: nat)
    requires a <= b <= c <= |s|
    ensures ByteSum(s[a..c]) == ByteSum(s[a..b]) + ByteSum(s[b..c])
  {
    assert s[a..c] == s[a..b] + s[b..c];
    ByteSumConcat(s[a..b], s[b..c]);
  }
}
