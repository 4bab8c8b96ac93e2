/** The final line of a file, found by scanning backwards in chunks. */
module FileTail {
  import opened Utf8

  const TAIL_CHUNK := 64 * 1024

  /** `bytes.rfind(b"\n", 0, end)`. */
  function RFind(b: Bytes, end: nat): (r: int)
    requires end <= |b|
    ensures -1 <= r < end
  {
    if end == 0 then -1 else if b[end - 1] == NEWLINE then end - 1 else RFind(b, end - 1)
  }

  lemma {:induction false} RFindIsLast(b: Bytes, end: nat)
    requires end <= |b|
    ensures RFind(b, end) >= 0 ==> b[RFind(b, end)] == NEWLINE
    ensures forall i :: RFind(b, end) < i < end ==> b[i] != NEWLINE
  {
    if end > 0 && b[end - 1] != NEWLINE { RFindIsLast(b, end - 1); }
  }

  /** Where the final line begins; the last byte may itself end that line, so it is not searched. */
  function Cut(data: Bytes): (k: nat)
    requires data != []
    ensures k < |data|
  {
    RFind(data, |data| - 1) + 1
  }

  function FinalLine(data: Bytes): Bytes {
    if data == [] then [] else data[Cut(data)..]
  }

  /** `tail` is the last line of `data`, its own newline included when it has one. */
  ghost predicate IsFinalLine(data: Bytes, tail: Bytes) {
    |tail| <= |data| && data[|data| - |tail|..] == tail && LineStartsAt(data, |data| - |tail|)
  }

  /** The last line begins at `k`: after a newline, or at the start, and no other newline but its own follows. */
  ghost predicate LineStartsAt(data: Bytes, k: nat) {
    && k <= |data| && (data != [] ==> k < |data|)
    && (k > 0 ==> data[k - 1] == NEWLINE)
    && forall i :: k <= i < |data| - 1 ==> data[i] != NEWLINE
  }

  lemma LineStartIsUnique(data: Bytes, k: nat)
    requires data != []
    ensures LineStartsAt(data, k) <==> k == Cut(data)
  {
    RFindIsLast(data, |data| - 1);
  }

  lemma FinalLineIsUnique(data: Bytes, tail: Bytes)
    ensures IsFinalLine(data, tail) <==> tail == FinalLine(data)
  {
    if data != [] {
      LineStartIsUnique(data, Cut(data));
      assert |data[Cut(data)..]| == |data| - Cut(data);
      if |tail| <= |data| { LineStartIsUnique(data, |data| - |tail|); }
    }
  }

  /** A search of the end of a file finds what a search of the file does, unless that lies before it. */
  lemma {:induction false} RFindInSuffix(data: Bytes, start: nat, k: nat)
    requires start + k <= |data|
    ensures var cut, whole := RFind(data[start..], k), RFind(data, start + k);
      if cut >= 0 then whole == start + cut else whole < start
    decreases k
  {
    if k > 0 {
      assert data[start..][k - 1] == data[start + (k - 1)];
      RFindInSuffix(data, start, k - 1);
    }
  }

  lemma CutInSuffix(data: Bytes, start: nat)
    requires start < |data|
    ensures Cut(data[start..]) > 0 ==> Cut(data) == start + Cut(data[start..])
  {
    RFindInSuffix(data, start, |data| - start - 1);
  }

  lemma SliceOfSlice(data: Bytes, start: nat, k: nat)
    requires start + k <= |data|
    ensures data[start..][k..] == data[start + k..]
  {
  }

  /** One more chunk read in front of the buffer. */
  method ReadChunk(data: Bytes, start: nat, end: nat, buffer: Bytes) returns (longer: Bytes)
    requires start <= end <= |data| && buffer == data[end..]
    ensures longer == data[start..]
  {
    longer := data[start..end] + buffer;
  }

  /** A cut found in the end of a file is where the final line begins; without one in all of it, the
      final line is the file. */
  lemma FinalLineFrom(data: Bytes, start: nat, buffer: Bytes)
    requires start < |data| && buffer == data[start..]
    ensures Cut(buffer) > 0 ==> FinalLine(data) == buffer[Cut(buffer)..]
    ensures Cut(buffer) == 0 && start == 0 ==> FinalLine(data) == buffer
  {
    CutInSuffix(data, start);
    SliceOfSlice(data, start, Cut(buffer));
    if start == 0 { assert data[start..] == data; }
  }

  /** The backward scan in chunks, for any chunk size. */
  method ReadTail(data: Bytes, chunk: nat) returns (size: nat, tail: Bytes)
    requires chunk > 0
    ensures size == |data| && tail == FinalLine(data)
  {
    size := |data|;
    if size == 0 {
      return 0, [];
    }
    var buffer: Bytes := [];
    var end := size;
    while end > 0
      invariant 0 <= end <= |data| && buffer == data[end..]
      invariant end == 0 ==> FinalLine(data) == buffer
    {
      var start := if end > chunk then end - chunk else 0;
      buffer := ReadChunk(data, start, end, buffer);
      FinalLineFrom(data, start, buffer);
      var cut := FindCut(buffer);
      if cut != 0 {
        return size, buffer[cut..];
      }
      end := start;
    }
    tail := buffer;
  }

  /** One past the last newline, the final byte aside; 0 without one. */
  method FindCut(buffer: Bytes) returns (cut: nat)
    requires buffer != []
    ensures cut == Cut(buffer)
  {
    cut := RFind(buffer, |buffer| - 1) + 1;
  }
}
