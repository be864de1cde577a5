/**
 * The record decoder `parse` and the `Line` it builds. A record is one input
 * line already split on whitespace into fields:
 *   direction height txid_hex vout_index
 * The direction "i" marks a spend (an input consuming an output); anything else
 * marks a creation (an output). The key identifies the output: the decoded
 * transaction id, byte-reversed on the spend path so that both directions
 * agree on one byte order, followed by the output index in big-endian order.
 */
module Record {
  import opened Wrappers
  import opened Bytes
  import opened Encoding

  type Key = seq<Byte>

  datatype Line = Line(input: bool, height: U32, key: Key)

  /** Why `parse` panics: a field index out of bounds (Missing) or an
      `unwrap` on a field that does not decode (Malformed). */
  datatype ParseError = Missing(position: nat) | Malformed(position: nat)

  /** Field k of a record is present and decodes. */
  predicate FieldValid(fields: seq<string>, k: nat) {
    k < |fields| &&
    if k == 1 || k == 3 then ParseU32(fields[k]).Some?
    else if k == 2 then HexDecode(fields[k]).Some?
    else true
  }

  /** The transaction id in the one byte order shared by both directions. */
  function CanonicalTxid(input: bool, txid: seq<Byte>): (c: seq<Byte>)
    ensures |c| == |txid|
    ensures forall i | 0 <= i < |txid| :: c[i] == if input then txid[|txid| - 1 - i] else txid[i]
  {
    if input then Reverse(txid) else txid
  }

  /** The key `parse` builds in place: reverse when spending, then extend
      with the four big-endian bytes of the output index. */
  function MakeKey(input: bool, txid: seq<Byte>, vout: U32): (k: Key)
    ensures |k| == |txid| + 4
    ensures k[..|txid|] == CanonicalTxid(input, txid)
    ensures BigEndianValue(k[|txid|..]) == vout
  {
    CanonicalTxid(input, txid) + U32ToBytes(vout)
  }

  /**
   * `parse`: reads the fields in order 0, 1, 2, 3 and stops at the first one
   * that is missing or does not decode; extra fields are ignored.
   */
  function Parse(fields: seq<string>): (r: Result<Line, ParseError>)
    ensures r.Success? <==>
      |fields| >= 4 && ParseU32(fields[1]).Some? && HexDecode(fields[2]).Some? && ParseU32(fields[3]).Some?
    ensures r.Failure? ==>
      var k := r.error.position;
      && k < 4
      && !FieldValid(fields, k)
      && (forall j: nat | j < k :: FieldValid(fields, j))
      && (r.error.Missing? <==> k >= |fields|)
    ensures r.Success? ==>
      var txid := HexDecode(fields[2]).value;
      && r.value.input == (fields[0] == "i")
      && r.value.height == ParseU32(fields[1]).value
      && r.value.key == MakeKey(r.value.input, txid, ParseU32(fields[3]).value)
      && |r.value.key| == |fields[2]| / 2 + 4
  {
    if |fields| < 1 then Failure(Missing(0))
    else
      var input := fields[0] == "i";
      if |fields| < 2 then Failure(Missing(1))
      else match ParseU32(fields[1])
      case None => Failure(Malformed(1))
      case Some(height) =>
        if |fields| < 3 then Failure(Missing(2))
        else match HexDecode(fields[2])
        case None => Failure(Malformed(2))
        case Some(txid) =>
          if |fields| < 4 then Failure(Missing(3))
          else match ParseU32(fields[3])
          case None => Failure(Malformed(3))
          case Some(vout) => Success(Line(input, height, MakeKey(input, txid, vout)))
  }

  /** A creation of (t, vout) and a spend naming the reversed id give the
      same key. */
  lemma KeyCanonical(txid: seq<Byte>, vout: U32)
    ensures MakeKey(false, txid, vout) == MakeKey(true, Reverse(txid), vout)
  {
    ReverseInvolution(txid);
  }

  /** Two keys are equal exactly when the canonical ids and the output
      indexes are: the key identifies the output. */
  lemma KeyInjective(in1: bool, t1: seq<Byte>, v1: U32, in2: bool, t2: seq<Byte>, v2: U32)
    ensures MakeKey(in1, t1, v1) == MakeKey(in2, t2, v2) <==>
            CanonicalTxid(in1, t1) == CanonicalTxid(in2, t2) && v1 == v2
  {
    var k1, k2 := MakeKey(in1, t1, v1), MakeKey(in2, t2, v2);
    if |t1| != |t2| {
      assert |k1| != |k2|;
    } else if k1 == k2 {
      assert k1[..|t1|] == k2[..|t2|];
      assert k1[|t1|..] == k2[|t2|..];
    }
  }

  /**
   * The canonicalisation rule on whole records: a creation whose id field is
   * the hex of t and a spend whose id field is the hex of reverse(t), with
   * the same output index, both decode, and to the same key, of length
   * |t| + 4 (36 for a 32-byte id).
   */
  lemma ParseCanonical(created: seq<string>, spent: seq<string>, txid: seq<Byte>)
    requires |created| >= 4 && |spent| >= 4
    requires created[0] != "i" && spent[0] == "i"
    requires ParseU32(created[1]).Some? && ParseU32(spent[1]).Some?
    requires created[2] == HexEncode(txid) && spent[2] == HexEncode(Reverse(txid))
    requires ParseU32(created[3]).Some? && ParseU32(spent[3]) == ParseU32(created[3])
    ensures Parse(created).Success? && Parse(spent).Success?
    ensures Parse(created).value.key == Parse(spent).value.key
    ensures |Parse(created).value.key| == |txid| + 4
  {
    HexDecodeEncode(txid);
    HexDecodeEncode(Reverse(txid));
    var vout := ParseU32(created[3]).value;
    var c, s := Parse(created), Parse(spent);
    assert c.Success? && s.Success?;
    assert c.value.key == MakeKey(false, txid, vout);
    assert s.value.key == MakeKey(true, Reverse(txid), vout);
    KeyCanonical(txid, vout);
  }

  /** The text of a record as the upstream producer writes it. */
  function RecordText(input: bool, height: U32, txid: seq<Byte>, vout: U32): (fields: seq<string>)
    ensures |fields| == 4
  {
    [if input then "i" else "o", DecimalString(height), HexEncode(txid), DecimalString(vout)]
  }

  /** `parse` reads back every record the producer writes, with the
      direction, the height and the key of the output it names. */
  lemma ParseRecordText(input: bool, height: U32, txid: seq<Byte>, vout: U32)
    ensures Parse(RecordText(input, height, txid, vout))
            == Success(Line(input, height, MakeKey(input, txid, vout)))
  {
    ParseU32Decimal(height);
    ParseU32Decimal(vout);
    HexDecodeEncode(txid);
  }
}
