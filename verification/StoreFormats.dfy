/** The texts of a message store's files, and the scanner that reads them back. */
module StoreFormats {
  import opened Decimal
  import opened DateTimes
  import opened TimeConvertor

  const SPACE: byte := 32
  const COMMA: byte := 44

  /** SEQNUM is a 64-bit unsigned integer. */
  const SEQNUMS: int := 0x1_0000_0000_0000_0000

  type SeqNum = n: int | 0 <= n < SEQNUMS

  // ----- scanf

  predicate IsSpace(b: byte) {
    b == 32 || 9 <= b <= 13
  }

  function SkipSpace(s: seq<byte>): (r: seq<byte>)
    ensures |r| <= |s| && (r != [] ==> !IsSpace(r[0]))
  {
    if s != [] && IsSpace(s[0]) then SkipSpace(s[1..]) else s
  }

  /** The number of digits at the start. */
  function DigitRun(s: seq<byte>): (n: nat)
    ensures n <= |s| && AllDigits(s[..n]) && (n < |s| ==> !IsDigit(s[n]))
  {
    if s == [] || !IsDigit(s[0]) then 0 else 1 + DigitRun(s[1..])
  }

  datatype Scanned = Scanned(number: nat, rest: seq<byte>)

  /** An unsigned conversion: white space, then at least one digit. */
  function ScanNumber(s: seq<byte>): (r: Option<Scanned>)
    ensures r.Some? ==> |r.value.rest| < |s|
  {
    var t := SkipSpace(s);
    var n := DigitRun(t);
    if n == 0 then None else Some(Scanned(Value(t[..n]), t[n..]))
  }

  lemma {:induction false} DigitRunIs(s: seq<byte>, t: seq<byte>)
    requires AllDigits(s) && (t == [] || !IsDigit(t[0]))
    ensures DigitRun(s + t) == |s|
  {
    if s == [] {
      assert s + t == t;
    } else {
      assert (s + t)[1..] == s[1..] + t;
      DigitRunIs(s[1..], t);
    }
  }

  /** A numeral is read up to where it ends. */
  lemma ScanNumeral(s: seq<byte>, t: seq<byte>)
    requires s != [] && AllDigits(s) && (t == [] || !IsDigit(t[0]))
    ensures ScanNumber(s + t) == Some(Scanned(Value(s), t))
  {
    DigitRunIs(s, t);
    assert SkipSpace(s + t) == s + t by {
      assert (s + t)[0] == s[0];
    }
    assert (s + t)[..|s|] == s && (s + t)[|s|..] == t;
  }

  // ----- the header file

  datatype LogEntry = LogEntry(num: nat, offset: nat, size: nat)

  /** num,offset,size and a space */
  function EntryText(e: LogEntry): seq<byte> {
    Digits(e.num) + ([COMMA] + (Digits(e.offset) + ([COMMA] + (Digits(e.size) + [SPACE]))))
  }

  function HeaderText(log: seq<LogEntry>): seq<byte> {
    if log == [] then [] else EntryText(log[0]) + HeaderText(log[1..])
  }

  lemma {:induction false} HeaderAppend(log: seq<LogEntry>, e: LogEntry)
    ensures HeaderText(log + [e]) == HeaderText(log) + EntryText(e)
  {
    if log != [] {
      assert (log + [e])[1..] == log[1..] + [e];
      HeaderAppend(log[1..], e);
    } else {
      assert ([e])[1..] == [];
    }
  }

  datatype ScannedEntry = ScannedEntry(entry: LogEntry, rest: seq<byte>)

  function After(s: seq<byte>, b: byte): (r: Option<seq<byte>>)
    ensures r.Some? ==> |r.value| < |s|
  {
    if s != [] && s[0] == b then Some(s[1..]) else None
  }

  /** A number and the byte that must follow it. */
  function ScanThen(s: seq<byte>, b: byte): (r: Option<Scanned>)
    ensures r.Some? ==> |r.value.rest| < |s|
  {
    var n := ScanNumber(s);
    if n.None? || After(n.value.rest, b).None? then None
    else Some(Scanned(n.value.number, After(n.value.rest, b).value))
  }

  /** One fscanf of the header file, when it converts all three numbers. */
  function ScanEntry(s: seq<byte>): (r: Option<ScannedEntry>)
    ensures r.Some? ==> |r.value.rest| < |s|
  {
    var num := ScanThen(s, COMMA);
    if num.None? then None else
      var offset := ScanThen(num.value.rest, COMMA);
      if offset.None? then None else
        var size := ScanNumber(offset.value.rest);
        if size.None? then None else
          Some(ScannedEntry(LogEntry(num.value.number, offset.value.number, size.value.number),
                            SkipSpace(size.value.rest)))
  }

  /** The entries that a header file's fscanf loop reads. */
  function Scan(s: seq<byte>): seq<LogEntry>
    decreases |s|
  {
    var e := ScanEntry(s);
    if e.None? then [] else [e.value.entry] + Scan(e.value.rest)
  }

  /** A number and the byte that ends it. */
  lemma NumberThen(n: nat, b: byte, t: seq<byte>, s: seq<byte>)
    requires !IsDigit(b) && s == Digits(n) + ([b] + t)
    ensures ScanNumber(s) == Some(Scanned(n, [b] + t))
    ensures ScanThen(s, b) == Some(Scanned(n, t))
  {
    ScanNumeral(Digits(n), [b] + t);
    ValueOfDigits(n);
    assert ([b] + t)[1..] == t;
  }

  lemma ScanThree(e: LogEntry, s: seq<byte>, t1: seq<byte>, t2: seq<byte>, rest: seq<byte>)
    requires ScanThen(s, COMMA) == Some(Scanned(e.num, t1)) && ScanThen(t1, COMMA) == Some(Scanned(e.offset, t2))
    requires ScanNumber(t2) == Some(Scanned(e.size, [SPACE] + rest)) && (rest == [] || !IsSpace(rest[0]))
    ensures ScanEntry(s) == Some(ScannedEntry(e, rest))
  {
    assert ([SPACE] + rest)[1..] == rest;
    assert SkipSpace([SPACE] + rest) == rest;
  }

  lemma ScanEntryText(e: LogEntry, rest: seq<byte>)
    requires rest == [] || !IsSpace(rest[0])
    ensures ScanEntry(EntryText(e) + rest) == Some(ScannedEntry(e, rest))
  {
    var t2 := Digits(e.size) + ([SPACE] + rest);
    var t1 := Digits(e.offset) + ([COMMA] + t2);
    EntryTextIs(e, rest);
    NumberThen(e.num, COMMA, t1, EntryText(e) + rest);
    NumberThen(e.offset, COMMA, t2, t1);
    NumberThen(e.size, SPACE, rest, t2);
    ScanThree(e, EntryText(e) + rest, t1, t2, rest);
  }

  lemma EntryTextIs(e: LogEntry, rest: seq<byte>)
    ensures EntryText(e) + rest
         == Digits(e.num) + ([COMMA] + (Digits(e.offset) + ([COMMA] + (Digits(e.size) + ([SPACE] + rest)))))
  {
  }

  lemma HeaderStarts(log: seq<LogEntry>)
    ensures HeaderText(log) == [] || !IsSpace(HeaderText(log)[0])
  {
    if log != [] {
      assert HeaderText(log)[0] == Digits(log[0].num)[0];
    }
  }

  lemma ScanStep(e: LogEntry, rest: seq<byte>)
    requires rest == [] || !IsSpace(rest[0])
    ensures Scan(EntryText(e) + rest) == [e] + Scan(rest)
  {
    ScanEntryText(e, rest);
  }

  /** What was written to the header file is what is read from it. */
  lemma {:induction false} ScanHeaderText(log: seq<LogEntry>)
    ensures Scan(HeaderText(log)) == log
  {
    if log != [] {
      HeaderStarts(log[1..]);
      ScanStep(log[0], HeaderText(log[1..]));
      ScanHeaderText(log[1..]);
    } else {
      assert ScanNumber([]).None?;
    }
  }

  // ----- the record of the two counters

  /** The size of a record with two 64-bit numbers. */
  const RECORD_SIZE := 43

  lemma SeqNumFits(n: SeqNum)
    ensures n < Pow10(20)
  {
    SmallPowers();
    assert Pow10(20) == 10 * Pow10(19) && Pow10(19) == 10 * Pow10(18) && Pow10(18) == 10 * Pow10(17);
    assert Pow10(17) == 10 * Pow10(16) && Pow10(16) == 10 * Pow10(15) && Pow10(15) == 10 * Pow10(14);
    assert Pow10(14) == 10 * Pow10(13) && Pow10(13) == 10 * Pow10(12) && Pow10(12) == 10 * Pow10(11);
    assert Pow10(11) == 10 * Pow10(10) && Pow10(10) == 10 * Pow10(9);
  }

  const BETWEEN: seq<byte> := [SPACE, COLON, SPACE]

  /** %20.20lu : %20.20lu */
  function RecordText(sender: SeqNum, target: SeqNum): (s: seq<byte>)
    ensures |s| == RECORD_SIZE
  {
    SeqNumFits(sender);
    SeqNumFits(target);
    Fixed(sender, 20) + (BETWEEN + Fixed(target, 20))
  }

  datatype Pair = Pair(sender: nat, target: nat)

  /** %lu : %lu */
  function ScanPair(s: seq<byte>): Option<Pair> {
    var sender := ScanNumber(s);
    if sender.None? then None else
      var t := After(SkipSpace(sender.value.rest), COLON);
      if t.None? then None else
        var target := ScanNumber(t.value);
        if target.None? then None else Some(Pair(sender.value.number, target.value.number))
  }

  datatype Counters = Counters(sender: SeqNum, target: SeqNum)

  /** A record of 43 bytes holds two 64-bit numbers; a file of another size has the older
      format, with two ints. A number that does not fit is not a record. */
  function ReadRecord(s: seq<byte>): Option<Counters> {
    var p := ScanPair(s);
    var limit := if |s| == RECORD_SIZE then SEQNUMS else 0x8000_0000;
    if p.Some? && p.value.sender < limit && p.value.target < limit
    then Some(Counters(p.value.sender, p.value.target)) else None
  }

  lemma ScanNumerals(s: seq<byte>, t: seq<byte>)
    requires s != [] && AllDigits(s) && t != [] && AllDigits(t)
    ensures ScanPair(s + (BETWEEN + t)) == Some(Pair(Value(s), Value(t)))
  {
    ScanNumeral(s, BETWEEN + t);
    BetweenScanned(t);
  }

  lemma BetweenScanned(t: seq<byte>)
    requires t != [] && AllDigits(t)
    ensures After(SkipSpace(BETWEEN + t), COLON) == Some([SPACE] + t)
    ensures ScanNumber([SPACE] + t) == Some(Scanned(Value(t), []))
  {
    assert (BETWEEN + t)[1..] == [COLON] + ([SPACE] + t);
    assert ([COLON] + ([SPACE] + t))[1..] == [SPACE] + t;
    assert ([SPACE] + t)[1..] == t;
    assert t + [] == t;
    ScanNumeral(t, []);
  }

  /** The counters come back from their record. */
  lemma RecordReads(sender: SeqNum, target: SeqNum)
    ensures ReadRecord(RecordText(sender, target)) == Some(Counters(sender, target))
  {
    SeqNumFits(sender);
    SeqNumFits(target);
    ScanNumerals(Fixed(sender, 20), Fixed(target, 20));
  }

  /** So do the counters of the older format, two ints as they are; a number that is no int
      does not, unless the text has the size of a record. */
  lemma OldRecordReads(sender: nat, target: nat)
    requires |Digits(sender) + (BETWEEN + Digits(target))| != RECORD_SIZE
    ensures ReadRecord(Digits(sender) + (BETWEEN + Digits(target)))
         == if sender < 0x8000_0000 && target < 0x8000_0000 then Some(Counters(sender, target)) else None
  {
    ValueOfDigits(sender);
    ValueOfDigits(target);
    ScanNumerals(Digits(sender), Digits(target));
  }

  /** Two ints never fill a record. */
  lemma OldRecordIsShort(sender: nat, target: nat)
    requires sender < 0x8000_0000 && target < 0x8000_0000
    ensures |Digits(sender) + (BETWEEN + Digits(target))| < RECORD_SIZE
  {
    SmallPowers();
    assert Pow10(10) == 10 * Pow10(9);
    DigitsLength(sender, 10);
    DigitsLength(target, 10);
  }

  // ----- the session file

  /** The number of bytes before the first white space. */
  function TokenRun(s: seq<byte>): (n: nat)
    ensures n <= |s|
  {
    if s == [] || IsSpace(s[0]) then 0 else 1 + TokenRun(s[1..])
  }

  /** %31s */
  function ScanToken(s: seq<byte>): Option<seq<byte>> {
    var t := SkipSpace(s);
    var n := if TokenRun(t) > 31 then 31 else TokenRun(t);
    if n == 0 then None else Some(t[..n])
  }

  /** A time of day in a year of four digits. */
  predicate IsTime(t: Stamp) {
    t.InDay() && Printable(GetYMD(t.date))
  }

  function SessionText(t: Stamp): (s: seq<byte>)
    requires IsTime(t)
    ensures |s| == 17
  {
    StampText(t, 0)
  }

  /** A time without its fraction of a second. */
  function WholeSeconds(t: Stamp): Stamp {
    if t.time < 0 then t else Stamp(t.date, Truncated(t.time, 0))
  }

  lemma {:induction false} TokenRunAll(s: seq<byte>)
    requires forall i :: 0 <= i < |s| ==> !IsSpace(s[i])
    ensures TokenRun(s) == |s|
  {
    if s != [] {
      TokenRunAll(s[1..]);
    }
  }

  ghost predicate NoSpace(s: seq<byte>) {
    forall i :: 0 <= i < |s| ==> !IsSpace(s[i])
  }

  lemma DateHasNoSpace(d: Date)
    requires Printable(d)
    ensures NoSpace(DateText(d))
  {
    SmallPowers();
    var y, m, n := Fixed(d.year, 4), Fixed(d.month, 2), Fixed(d.day, 2);
    assert NoSpace(y) && NoSpace(m) && NoSpace(n);
  }

  lemma ClockHasNoSpace(c: Clock)
    requires IsClock(c)
    ensures NoSpace(ClockText(c))
  {
    SmallPowers();
    var h, m, s := Fixed(c.hour, 2), Fixed(c.minute, 2), Fixed(c.second, 2);
    assert NoSpace(h) && NoSpace(m) && NoSpace(s);
  }

  lemma SessionHasNoSpace(t: Stamp)
    requires IsTime(t)
    ensures NoSpace(SessionText(t))
  {
    DateHasNoSpace(GetYMD(t.date));
    HMSRoundTrip(t.time);
    ClockHasNoSpace(GetHMS(t.time));
    FractionFits(t.time, 0);
    assert NoSpace(TimeText(t.time, 0));
  }

  /** The creation time comes back from the session file in whole seconds. */
  lemma SessionReads(t: Stamp)
    requires IsTime(t)
    ensures ScanToken(SessionText(t)) == Some(SessionText(t))
    ensures ParsedTimeStamp(SessionText(t)) == Some(WholeSeconds(t))
  {
    SessionHasNoSpace(t);
    TokenIs(SessionText(t));
    TimeStampPrintParse(t, 0);
  }

  lemma TokenIs(s: seq<byte>)
    requires NoSpace(s) && 0 < |s| <= 31
    ensures ScanToken(s) == Some(s)
  {
    TokenRunAll(s);
    assert SkipSpace(s) == s;
    assert s[..|s|] == s;
  }

  /** The token is cut at 31 bytes, which are still too many for a time: whatever the file holds
      before its first white space is a time if and only if the token is. */
  lemma TokenParses(s: seq<byte>, rest: seq<byte>)
    requires s != [] && NoSpace(s) && (rest == [] || IsSpace(rest[0]))
    ensures ScanToken(s + rest) == Some(if |s| <= 31 then s else s[..31])
    ensures ParsedTimeStamp(ScanToken(s + rest).value) == ParsedTimeStamp(s)
  {
    TokenRunTo(s, rest);
    assert (s + rest)[0] == s[0];
    assert SkipSpace(s + rest) == s + rest;
    assert (s + rest)[..|s|] == s && (|s| > 31 ==> (s + rest)[..31] == s[..31]);
  }

  lemma {:induction false} TokenRunTo(s: seq<byte>, rest: seq<byte>)
    requires NoSpace(s) && (rest == [] || IsSpace(rest[0]))
    ensures TokenRun(s + rest) == |s|
  {
    if s == [] {
      assert s + rest == rest;
    } else {
      assert (s + rest)[1..] == s[1..] + rest;
      TokenRunTo(s[1..], rest);
    }
  }

  /** White space is skipped: blanks, tabs, line feeds, and so on. */
  lemma {:induction false} SpaceSkipped(w: seq<byte>, s: seq<byte>)
    requires forall i :: 0 <= i < |w| ==> w[i] == 32 || 9 <= w[i] <= 13
    ensures SkipSpace(w + s) == SkipSpace(s)
    ensures ScanNumber(w + s) == ScanNumber(s) && ScanToken(w + s) == ScanToken(s)
  {
    if w == [] {
      assert w + s == s;
    } else {
      assert (w + s)[1..] == w[1..] + s;
      SpaceSkipped(w[1..], s);
    }
  }

  /** The text begins with digits that denote n, as many as i, and the byte b; the rest follows. */
  predicate NumeralThen(s: seq<byte>, i: nat, n: nat, b: byte, rest: seq<byte>) {
    i < |s| && Numeral(s, 0, i, n) && s[i] == b && s[i + 1..] == rest
  }

  lemma NumeralWritten(n: nat, b: byte, rest: seq<byte>)
    ensures NumeralThen(Digits(n) + ([b] + rest), |Digits(n)|, n, b, rest)
  {
    ValueOfDigits(n);
    PartsOf(Digits(n), b, rest);
  }

  lemma PartsOf(s: seq<byte>, b: byte, rest: seq<byte>)
    ensures var t := s + ([b] + rest);
      |s| < |t| && t[0..|s|] == s && t[|s|] == b && t[|s| + 1..] == rest
  {
  }

  /** The bytes of an entry: the number, a comma, the offset, a comma, the size and a blank. */
  lemma EntryBytes(e: LogEntry) returns (offset: seq<byte>, size: seq<byte>)
    ensures exists i: nat :: NumeralThen(EntryText(e), i, e.num, 44, offset)
    ensures exists i: nat :: NumeralThen(offset, i, e.offset, 44, size)
    ensures exists i: nat :: NumeralThen(size, i, e.size, 32, [])
  {
    size := Digits(e.size) + [SPACE];
    offset := Digits(e.offset) + ([COMMA] + size);
    assert size == Digits(e.size) + ([SPACE] + []);
    NumeralWritten(e.size, SPACE, []);
    NumeralWritten(e.offset, COMMA, size);
    NumeralWritten(e.num, COMMA, offset);
    assert EntryText(e) == Digits(e.num) + ([COMMA] + offset);
  }

  /** The bytes of a record: 20 digits, space, colon, space, 20 digits. */
  lemma RecordBytes(sender: SeqNum, target: SeqNum)
    ensures
      var s := RecordText(sender, target);
      |s| == 43 && Numeral(s, 0, 20, sender) && s[20..23] == [32, 58, 32] && Numeral(s, 23, 43, target)
  {
    SeqNumFits(sender);
    SeqNumFits(target);
    var s := RecordText(sender, target);
    assert s[0..20] == Fixed(sender, 20) && s[23..43] == Fixed(target, 20);
  }
}
