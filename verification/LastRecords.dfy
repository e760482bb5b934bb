/** The last record of its kind: what a stream says about an attribute that later records override. */
module LastRecords {
  import opened Basics
  import opened Records
  import opened Utf8

  /** The last varint with this number. */
  function LastVarint(raws: seq<Raw>, number: nat): Option<nat> {
    if raws == [] then None
    else if LastVarint(raws[1..], number).Some? then LastVarint(raws[1..], number)
    else if raws[0].rec.number == number && raws[0].rec.payload.PVarint? then Some(raws[0].rec.payload.v)
    else None
  }

  /** The last length-delimited payload with this number. */
  function LastBlob(raws: seq<Raw>, number: nat): Option<Bytes> {
    if raws == [] then None
    else if LastBlob(raws[1..], number).Some? then LastBlob(raws[1..], number)
    else if raws[0].rec.number == number && raws[0].rec.payload.PLen? then Some(raws[0].rec.payload.data)
    else None
  }

  function Or<T>(o: Option<T>, otherwise: T): T {
    if o.Some? then o.value else otherwise
  }

  /** All length-delimited payloads with this number are text. */
  predicate AllText(raws: seq<Raw>, number: nat) {
    forall i :: 0 <= i < |raws| && raws[i].rec.number == number && raws[i].rec.payload.PLen? ==>
      ValidUtf8(raws[i].rec.payload.data)
  }

  lemma {:induction false} AllTextHead(raws: seq<Raw>, number: nat)
    requires raws != []
    ensures AllText(raws, number)
       <==> && AllText(raws[1..], number)
            && (raws[0].rec.number == number && raws[0].rec.payload.PLen? ==> ValidUtf8(raws[0].rec.payload.data))
  {
    hide ValidUtf8;
    assert raws == [raws[0]] + raws[1..];
  }

  /** Two's complement of the low 64 and 32 bits. */
  function Signed64(v: nat): int {
    var low := v % 0x1_0000_0000_0000_0000;
    if low < 0x8000_0000_0000_0000 then low else low - 0x1_0000_0000_0000_0000
  }

  function Signed32(v: nat): int {
    var low := v % 0x1_0000_0000;
    if low < 0x8000_0000 then low else low - 0x1_0000_0000
  }
}
