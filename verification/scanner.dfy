/** The framing half of `CStatsDOTA::ProcessAction`: finding the DotA
    real-time marker `6b 64 72 2e 78 00` in an action buffer and reading
    the (namespace, key, value) record that follows it. There is no length
    field: the scanner tries every offset, and on a partial match moves on
    by one byte. */
module StatsScan {
  import opened Base
  import opened Util

  /** 0x6b followed by the NUL-terminated string "dr.x". */
  const MARKER: Bytes := [0x6b, 0x64, 0x72, 0x2e, 0x78, 0x00]

  /** One telemetry record: two C strings and the four raw value bytes. */
  datatype Record = Record(ns: Bytes, key: Bytes, value: Bytes)

  /** The marker starts at offset i. */
  predicate MarkerAt(buf: Bytes, i: nat)
    requires i + 6 <= |buf|
  {
    buf[i..i + 6] == MARKER
  }

  /** The bytes a record occupies: marker, namespace, NUL, key, NUL, value. */
  function Consumed(r: Record): nat {
    |MARKER| + |r.ns| + 1 + |r.key| + 1 + 4
  }

  /** The namespace C string of a record whose marker is at offset i. */
  function NsAt(buf: Bytes, i: nat): Bytes {
    ExtractCString(buf, i + 6)
  }

  /** The key C string of a record whose marker is at offset i. */
  function KeyAt(buf: Bytes, i: nat): Bytes {
    ExtractCString(buf, i + 7 + |NsAt(buf, i)|)
  }

  /** Tries to read a record at offset i: the marker, then the namespace
      C string at i+6, then the key C string just past the namespace's NUL,
      then four value bytes just past the key's NUL. Each read first checks
      that the buffer is long enough; any failed check yields None. */
  function ParseAt(buf: Bytes, i: nat): (r: Option<Record>)
    requires i + 6 <= |buf|
    ensures r.Some? <==>
      MarkerAt(buf, i) && i + 12 + |NsAt(buf, i)| + |KeyAt(buf, i)| <= |buf|
    ensures r.Some? ==>
      var ns := r.value.ns;
      var key := r.value.key;
      && ns == NsAt(buf, i)
      && key == KeyAt(buf, i)
      && i + Consumed(r.value) <= |buf|
      && r.value.value == buf[i + 8 + |ns| + |key| .. i + 12 + |ns| + |key|]
  {
    if !MarkerAt(buf, i) then None
    else if |buf| < i + 7 then None
    else
      var ns := ExtractCString(buf, i + 6);
      if |buf| < i + 8 + |ns| then None
      else
        var key := ExtractCString(buf, i + 7 + |ns|);
        if |buf| < i + 12 + |ns| + |key| then None
        else Some(Record(ns, key, buf[i + 8 + |ns| + |key| .. i + 12 + |ns| + |key|]))
  }

  /** A record read at offset i has both C strings NUL-terminated inside
      the buffer, and neither holds a NUL. */
  lemma ParseAtTerminated(buf: Bytes, i: nat)
    requires i + 6 <= |buf|
    requires ParseAt(buf, i).Some?
    ensures var r := ParseAt(buf, i).value;
      && buf[i + 6 + |r.ns|] == 0
      && buf[i + 7 + |r.ns| + |r.key|] == 0
      && WellFormed(r)
  {
    var r := ParseAt(buf, i).value;
    ExtractCStringIsLongestRun(buf, i + 6);
    ExtractCStringIsLongestRun(buf, i + 7 + |r.ns|);
  }

  /** Where the scan resumes after offset i: just past the value bytes of a
      record read there, or the next byte otherwise. */
  function Next(buf: Bytes, i: nat): (j: nat)
    requires i + 6 <= |buf|
    ensures i < j <= |buf|
    ensures ParseAt(buf, i).Some? ==> j == i + Consumed(ParseAt(buf, i).value)
    ensures ParseAt(buf, i).None? ==> j == i + 1
  {
    match ParseAt(buf, i)
    case Some(r) => i + Consumed(r)
    case None => i + 1
  }

  /** The records the scanner finds from offset i on, in buffer order. The
      scan continues while at least six bytes remain. */
  function Records(buf: Bytes, i: nat): seq<Record>
    decreases |buf| - i
  {
    if |buf| < i + 6 then []
    else match ParseAt(buf, i)
      case Some(r) => [r] + Records(buf, Next(buf, i))
      case None => Records(buf, Next(buf, i))
  }

  // ---------------------------------------------------------------------
  // Encoding: what a well-formed record looks like on the wire
  // ---------------------------------------------------------------------

  /** A record that can be written unambiguously: C strings without NULs
      and exactly four value bytes. */
  predicate WellFormed(r: Record) {
    NulFree(r.ns) && NulFree(r.key) && |r.value| == 4
  }

  function Encode(r: Record): (b: Bytes)
    ensures |b| == |r.ns| + |r.key| + 8 + |r.value|
  {
    MARKER + r.ns + [0] + r.key + [0] + r.value
  }

  function EncodeAll(rs: seq<Record>): Bytes {
    if |rs| == 0 then [] else Encode(rs[0]) + EncodeAll(rs[1..])
  }

  /** A parse at offset |p| of p + q depends only on q. */
  lemma NsAtShift(p: Bytes, q: Bytes, j: nat)
    ensures NsAt(p + q, |p| + j) == NsAt(q, j)
  {
    ExtractCStringShift(p, q, j + 6);
  }

  lemma KeyAtShift(p: Bytes, q: Bytes, j: nat)
    ensures KeyAt(p + q, |p| + j) == KeyAt(q, j)
  {
    NsAtShift(p, q, j);
    var n := |NsAt(q, j)|;
    ExtractCStringShift(p, q, j + 7 + n);
    assert KeyAt(p + q, |p| + j) == ExtractCString(p + q, |p| + (j + 7 + n));
  }

  /** A slice of q taken inside p + q. */
  lemma SliceShift(p: Bytes, q: Bytes, j: nat, k: nat)
    requires j <= k <= |q|
    ensures (p + q)[|p| + j .. |p| + k] == q[j..k]
  {
    assert forall t :: 0 <= t < k - j ==> (p + q)[|p| + j .. |p| + k][t] == q[j..k][t];
  }

  lemma ParseAtShift(p: Bytes, q: Bytes, j: nat)
    requires j + 6 <= |q|
    ensures ParseAt(p + q, |p| + j) == ParseAt(q, j)
  {
    var i := |p| + j;
    SliceShift(p, q, j, j + 6);
    assert MarkerAt(p + q, i) == MarkerAt(q, j);
    NsAtShift(p, q, j);
    KeyAtShift(p, q, j);
    var ns := NsAt(q, j);
    var key := KeyAt(q, j);
    if j + 12 + |ns| + |key| <= |q| {
      SliceShift(p, q, j + 8 + |ns| + |key|, j + 12 + |ns| + |key|);
    }
  }

  lemma NsOfEncoded(r: Record, q: Bytes)
    requires WellFormed(r)
    ensures NsAt(Encode(r) + q, 0) == r.ns
  {
    var rest := r.key + [0] + r.value + q;
    assert Encode(r) + q == MARKER + (r.ns + [0] + rest);
    ExtractCStringShift(MARKER, r.ns + [0] + rest, 0);
    ExtractCStringOfTerminated(r.ns, rest);
  }

  lemma KeyOfEncoded(r: Record, q: Bytes)
    requires WellFormed(r)
    ensures KeyAt(Encode(r) + q, 0) == r.key
  {
    NsOfEncoded(r, q);
    var tail := r.value + q;
    var head := MARKER + r.ns + [0];
    assert Encode(r) + q == head + (r.key + [0] + tail);
    ExtractCStringShift(head, r.key + [0] + tail, 0);
    ExtractCStringOfTerminated(r.key, tail);
    assert KeyAt(Encode(r) + q, 0) == ExtractCString(head + (r.key + [0] + tail), |head| + 0);
  }

  /** A well-formed record at the front of a buffer is read back exactly. */
  lemma ParseEncodedFront(r: Record, q: Bytes)
    requires WellFormed(r)
    ensures 6 <= |Encode(r) + q|
    ensures ParseAt(Encode(r) + q, 0) == Some(r)
  {
    var b := Encode(r) + q;
    assert b[0..6] == MARKER;
    NsOfEncoded(r, q);
    KeyOfEncoded(r, q);
    assert b[8 + |r.ns| + |r.key| .. 12 + |r.ns| + |r.key|] == r.value;
  }

  /** A well-formed record written at offset |p| is read back exactly. */
  lemma ParseEncoded(p: Bytes, r: Record, q: Bytes)
    requires WellFormed(r)
    ensures |p| + 6 <= |p + Encode(r) + q|
    ensures ParseAt(p + Encode(r) + q, |p|) == Some(r)
  {
    var b := Encode(r) + q;
    ParseEncodedFront(r, q);
    ParseAtShift(p, b, 0);
    assert p + b == p + Encode(r) + q;
  }

  /** A record read at offset i is reported first, and the scan resumes
      at offset n just past it. */
  lemma RecordsAfterParse(buf: Bytes, i: nat, r: Record, n: nat)
    requires i + 6 <= |buf| && ParseAt(buf, i) == Some(r) && i + Consumed(r) == n
    ensures Records(buf, i) == [r] + Records(buf, n)
  {
    assert Next(buf, i) == n;
  }

  /** The bytes of several records are those of the first followed by
      those of the rest, whatever precedes them. */
  lemma EncodeAllCons(pre: Bytes, rs: seq<Record>)
    requires |rs| > 0
    ensures pre + EncodeAll(rs) == (pre + Encode(rs[0])) + EncodeAll(rs[1..])
  {
  }

  /** A well-formed record written after any prefix is reported, and the
      scan resumes just past it. */
  lemma RecordsAfterCons(pre: Bytes, r: Record, rest: Bytes)
    requires WellFormed(r)
    ensures Records(pre + Encode(r) + rest, |pre|) == [r] + Records(pre + Encode(r) + rest, |pre + Encode(r)|)
  {
    ParseEncoded(pre, r, rest);
    RecordsAfterParse(pre + Encode(r) + rest, |pre|, r, |pre + Encode(r)|);
  }

  /** Well-formed records written back to back after any prefix are
      found in order. */
  lemma {:induction false} RecordsAfter(pre: Bytes, rs: seq<Record>)
    requires forall k :: 0 <= k < |rs| ==> WellFormed(rs[k])
    ensures Records(pre + EncodeAll(rs), |pre|) == rs
    decreases |rs|
  {
    if |rs| == 0 {
      assert pre + EncodeAll(rs) == pre;
    } else {
      var pre' := pre + Encode(rs[0]);
      EncodeAllCons(pre, rs);
      RecordsAfterCons(pre, rs[0], EncodeAll(rs[1..]));
      RecordsAfter(pre', rs[1..]);
      assert rs == [rs[0]] + rs[1..];
    }
  }

  /** Decoding inverts encoding: the scanner finds exactly the records of
      a buffer made of well-formed records written back to back. */
  lemma RecordsOfEncoded(rs: seq<Record>)
    requires forall k :: 0 <= k < |rs| ==> WellFormed(rs[k])
    ensures Records(EncodeAll(rs), 0) == rs
  {
    RecordsAfter([], rs);
    assert [] + EncodeAll(rs) == EncodeAll(rs);
  }

  /** No record fits in a buffer shorter than twelve bytes (the marker,
      two empty C strings and the value): such a buffer yields nothing. */
  lemma {:induction false} ShortBufferHasNoRecords(buf: Bytes, i: nat)
    requires |buf| < 12
    ensures Records(buf, i) == []
    decreases |buf| - i
  {
    if |buf| >= i + 6 {
      assert ParseAt(buf, i).None?;
      ShortBufferHasNoRecords(buf, i + 1);
    }
  }

  /** Every record the scanner reports is well formed: its C strings hold
      no NUL and its value has four bytes. */
  lemma {:induction false} RecordsAreWellFormed(buf: Bytes, i: nat)
    ensures forall k :: 0 <= k < |Records(buf, i)| ==> WellFormed(Records(buf, i)[k])
    decreases |buf| - i
  {
    if |buf| >= i + 6 {
      if ParseAt(buf, i).Some? {
        ParseAtTerminated(buf, i);
      }
      RecordsAreWellFormed(buf, Next(buf, i));
    }
  }
}
