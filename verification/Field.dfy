/** A field: a tag and a value, their encoding, and the lazily cached metrics of it. */
module Fields {
  import opened Decimal
  import I = IntConvertor

  const EQUALS: byte := 61
  const SOH: byte := 1

  datatype Field = Field(tag: int, value: seq<byte>)

  /** Tags are ints. */
  predicate IsTag(tag: int) {
    I.IntType.Int32.Holds(tag)
  }

  /** tag=value<SOH> */
  function Encoded(f: Field): (s: seq<byte>) {
    Text(f.tag) + [EQUALS] + f.value + [SOH]
  }

  function ByteSum(s: seq<byte>): (n: nat) {
    if s == [] then 0 else ByteSum(s[..|s| - 1]) + s[|s| - 1]
  }

  lemma {:induction false} ByteSumConcat(s: seq<byte>, t: seq<byte>)
    ensures ByteSum(s + t) == ByteSum(s) + ByteSum(t)
  {
    if t == [] {
      assert s + t == s;
    } else {
      assert (s + t)[..|s + t| - 1] == s + t[..|t| - 1];
      ByteSumConcat(s, t[..|t| - 1]);
    }
  }

  class FieldBase {
    var m_tag: int
    var m_string: seq<byte>
    var m_length: int
    var m_checksum: int

    function Value(): Field
      reads this
    {
      Field(m_tag, m_string)
    }

    /** Metrics of length 0 are not calculated; any others are those of the encoding. */
    ghost predicate Valid()
      reads this
    {
      && IsTag(m_tag)
      && (m_length > 0 ==> m_length == |Encoded(Value())| && m_checksum == ByteSum(Encoded(Value())))
    }

    constructor (tag: int, value: seq<byte>)
      requires IsTag(tag)
      ensures Valid() && Value() == Field(tag, value)
    {
      m_tag, m_string, m_length, m_checksum := tag, value, 0, 0;
    }

    constructor Copy(rhs: FieldBase)
      requires rhs.Valid()
      ensures Valid() && Value() == rhs.Value()
    {
      m_tag, m_string, m_length, m_checksum := rhs.m_tag, rhs.m_string, rhs.m_length, rhs.m_checksum;
    }

    method Assign(rhs: FieldBase)
      requires rhs.Valid()
      modifies this
      ensures Valid() && Value() == old(rhs.Value())
    {
      m_tag := rhs.m_tag;
      m_string := rhs.m_string;
      m_length, m_checksum := rhs.m_length, rhs.m_checksum;
    }

    /** rhs may be this very field. */
    method Swap(rhs: FieldBase)
      requires Valid() && rhs.Valid()
      modifies this, rhs
      ensures Valid() && rhs.Valid() && Value() == old(rhs.Value()) && rhs.Value() == old(Value())
    {
      var tag := m_tag;
      m_tag := rhs.m_tag;
      rhs.m_tag := tag;
      var length, checksum := m_length, m_checksum;
      m_length, m_checksum := rhs.m_length, rhs.m_checksum;
      rhs.m_length, rhs.m_checksum := length, checksum;
      var value := m_string;
      m_string := rhs.m_string;
      rhs.m_string := value;
    }

    method SetTag(tag: int)
      requires Valid() && IsTag(tag)
      modifies this
      ensures Valid() && Value() == old(Value()).(tag := tag)
    {
      m_tag := tag;
      m_length, m_checksum := 0, 0;
    }

    method SetString(value: seq<byte>)
      requires Valid()
      modifies this
      ensures Valid() && Value() == old(Value()).(value := value)
    {
      m_string := value;
      m_length, m_checksum := 0, 0;
    }

    method GetLength() returns (length: int)
      requires Valid()
      modifies this
      ensures Valid() && Value() == old(Value()) && length == |Encoded(Value())|
    {
      Calculate();
      length := m_length;
    }

    method GetTotal() returns (total: int)
      requires Valid()
      modifies this
      ensures Valid() && Value() == old(Value()) && total == ByteSum(Encoded(Value()))
    {
      Calculate();
      total := m_checksum;
    }

    method Calculate()
      requires Valid()
      modifies this
      ensures Valid() && Value() == old(Value()) && m_length > 0
    {
      if m_length > 0 {
        return;
      }
      m_length, m_checksum := CalculateMetrics(m_tag, m_string);
    }
  }

  /** The summing loop: checksum += (unsigned char)c for each character. */
  method AddBytes(start: nat, s: seq<byte>) returns (checksum: nat)
    ensures checksum == start + ByteSum(s)
  {
    checksum := start;
    var i := 0;
    assert s[..0] == [];
    while i < |s|
      invariant i <= |s| && checksum == start + ByteSum(s[..i])
    {
      assert s[..i + 1][..i] == s[..i];
      checksum := checksum + s[i] as int;
      i := i + 1;
    }
    assert s[..|s|] == s;
  }

  /** The metrics of tag=value<SOH>, without building it. */
  method CalculateMetrics(tag: int, value: seq<byte>) returns (length: nat, checksum: nat)
    requires IsTag(tag)
    ensures length == |Encoded(Field(tag, value))| && checksum == ByteSum(Encoded(Field(tag, value)))
  {
    var tagBuffer := new byte[16];
    I.TextFits(I.IntType.Int32, tag);
    var tagLength := I.NumberOfSymbolsIn(I.IntType.Int32, tag);
    var p := I.IntegerToString(I.IntType.Int32, tagBuffer, 0, tagLength, tag);
    assert tagBuffer[..tagLength] == tagBuffer[..][..tagLength] == Text(tag);
    checksum := AddBytes(EQUALS as int + SOH as int, tagBuffer[..tagLength]);
    checksum := AddBytes(checksum, value);
    length := tagLength + |value| + 2;
    SumOfEncoding(Field(tag, value));
  }

  lemma SumOfEncoding(f: Field)
    ensures ByteSum(Encoded(f)) == 62 + ByteSum(Text(f.tag)) + ByteSum(f.value)
  {
    ByteSumConcat(Text(f.tag) + [EQUALS] + f.value, [SOH]);
    ByteSumConcat(Text(f.tag) + [EQUALS], f.value);
    ByteSumConcat(Text(f.tag), [EQUALS]);
    ByteSumOne(EQUALS);
    ByteSumOne(SOH);
  }

  lemma ByteSumOne(b: byte)
    ensures ByteSum([b]) == b as int
  {
    assert [b][..0] == [];
  }

  /** appendTo: the result is made longer, and the new part written in place. */
  method AppendTo(f: Field, result: seq<byte>) returns (r: seq<byte>)
    requires IsTag(f.tag)
    ensures r == result + Encoded(f)
  {
    var tagLength := I.NumberOfSymbolsIn(I.IntType.Int32, f.tag);
    var totalLength := tagLength + |f.value| + 2;
    var buf := new byte[totalLength];
    var p := I.IntegerToString(I.IntType.Int32, buf, 0, tagLength, f.tag);
    assert buf[..tagLength] == buf[..][..tagLength] == Text(f.tag);
    buf[tagLength] := EQUALS;
    forall i | 0 <= i < |f.value| {
      buf[tagLength + 1 + i] := f.value[i];
    }
    buf[totalLength - 1] := SOH;
    assert buf[..tagLength] == Text(f.tag);
    assert buf[tagLength + 1..totalLength - 1] == f.value;
    assert buf[..] == Encoded(f);
    r := result + buf[..];
  }
}
