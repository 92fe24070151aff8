/** The offline sample decoder (decode_samples.c): it reads a file of
    packed 16-byte sample records, one after another, and lists each one
    with its number, fields and flag names. Opening the file and printing
    are outside the model; the file's contents are a byte sequence and the
    listing is a sequence of `Line` values. */
module SampleDecoder {
  import opened Machine
  import opened SimTempTypes

  /** One record of the packed layout, little-endian: timestamp_ns (u64)
      from bytes 0-7, temp_mC (i32) from 8-11, flags (u32) from 12-15. The
      decoder's struct repeats the driver's field for field, so the record
      is exactly the packed image of the sample it decodes to: the layout
      has no padding and no unused bit patterns. */
  function DecodeRecord(record: seq<bv8>): (s: Sample)
    requires |record| == SAMPLE_SIZE
    ensures EncodeSample(s) == record
  {
    var s := Sample(LeU64(record[..8]), ToS32(LeU32(record[8..12])), LeBits32(record[12..]));
    var bytes := EncodeSample(s);
    assert bytes[..8] == record[..8] by {
      LeU64Injective(bytes[..8], record[..8]);
    }
    assert bytes[8..12] == record[8..12] by {
      assert S32Bits(ToS32(LeU32(bytes[8..12]))) == S32Bits(ToS32(LeU32(record[8..12])));
      LeU32Injective(bytes[8..12], record[8..12]);
    }
    assert bytes[12..] == record[12..];
    assert bytes == bytes[..8] + bytes[8..12] + bytes[12..];
    assert record == record[..8] + record[8..12] + record[12..];
    s
  }

  lemma LeU32Injective(a: seq<bv8>, b: seq<bv8>)
    requires |a| == 4 && |b| == 4 && LeU32(a) == LeU32(b)
    ensures a == b
  {
  }

  lemma LeU64Injective(a: seq<bv8>, b: seq<bv8>)
    requires |a| == 8 && |b| == 8 && LeU64(a) == LeU64(b)
    ensures a == b
  {
  }

  /** Bytes produced from a sample decode back to the same sample. */
  lemma {:induction false} DecodeEncodeSample(s: Sample)
    ensures DecodeRecord(EncodeSample(s)) == s
  {
    var bytes := EncodeSample(s);
    var d := DecodeRecord(bytes);
    LeBits32OfBits32Bytes(s.flags);
  }

  /** Every whole record of the file, in order; a trailing partial record
      (fread's short read) ends the loop and is ignored. */
  function DecodeAll(data: seq<bv8>): (samples: seq<Sample>)
    ensures |samples| == |data| / SAMPLE_SIZE
    decreases |data|
  {
    if |data| < SAMPLE_SIZE then [] else [DecodeRecord(data[..SAMPLE_SIZE])] + DecodeAll(data[SAMPLE_SIZE..])
  }

  /** The i-th decoded sample comes from the i-th 16-byte record of the
      file, whatever follows it. */
  lemma {:induction false} DecodeAllAt(data: seq<bv8>, i: nat)
    requires i < |data| / SAMPLE_SIZE
    ensures (i + 1) * SAMPLE_SIZE <= |data|
    ensures DecodeAll(data)[i] == DecodeRecord(RecordAt(data, i))
    decreases i
  {
    if i == 0 {
      assert RecordAt(data, 0) == data[..SAMPLE_SIZE];
    } else {
      var rest := data[SAMPLE_SIZE..];
      DecodeAllAt(rest, i - 1);
      RecordAtRest(data, i);
    }
  }

  /** Record i of the file is record i - 1 of what follows the first one. */
  lemma RecordAtRest(data: seq<bv8>, i: nat)
    requires 1 <= i && (i + 1) * SAMPLE_SIZE <= |data|
    ensures RecordAt(data[SAMPLE_SIZE..], i - 1) == RecordAt(data, i)
  {
    var k := (i - 1) * SAMPLE_SIZE;
    assert k + SAMPLE_SIZE == i * SAMPLE_SIZE;
    var a := RecordAt(data[SAMPLE_SIZE..], i - 1);
    var b := RecordAt(data, i);
    forall j | 0 <= j < SAMPLE_SIZE
      ensures a[j] == b[j]
    {
      assert a[j] == data[SAMPLE_SIZE + k + j];
    }
  }

  /** Bytes 16i to 16i+15 of the file: the (i+1)-th record. */
  function RecordAt(data: seq<bv8>, i: nat): (record: seq<bv8>)
    requires (i + 1) * SAMPLE_SIZE <= |data|
    ensures |record| == SAMPLE_SIZE
  {
    data[i * SAMPLE_SIZE .. i * SAMPLE_SIZE + SAMPLE_SIZE]
  }

  /** The byte image of a sequence of samples, records back to back. */
  function EncodeAll(samples: seq<Sample>): (data: seq<bv8>)
    ensures |data| == |samples| * SAMPLE_SIZE
  {
    if samples == [] then [] else EncodeSample(samples[0]) + EncodeAll(samples[1..])
  }

  /** A file of concatenated records, with or without a trailing partial
      record, decodes to exactly the samples it was built from. */
  lemma {:induction false} DecodeEncodeAll(samples: seq<Sample>, tail: seq<bv8>)
    requires |tail| < SAMPLE_SIZE
    ensures DecodeAll(EncodeAll(samples) + tail) == samples
  {
    var data := EncodeAll(samples) + tail;
    if samples == [] {
      assert data == tail;
    } else {
      var first := EncodeSample(samples[0]);
      var more := EncodeAll(samples[1..]) + tail;
      assert data == first + more;
      assert data[..SAMPLE_SIZE] == first && data[SAMPLE_SIZE..] == more;
      calc {
        DecodeAll(data);
        [DecodeRecord(first)] + DecodeAll(more);
        { DecodeEncodeSample(samples[0]); DecodeEncodeAll(samples[1..], tail); }
        [samples[0]] + samples[1..];
        samples;
      }
    }
  }

  /** The names the decoder prints for a flag word: NEW_SAMPLE for bit 0x1,
      then THRESHOLD_CROSSED for bit 0x2; no other bit prints anything. */
  function FlagLabels(flags: bv32): (labels: seq<string>)
    ensures ("NEW_SAMPLE" in labels) == (flags & FLAG_NEW_SAMPLE != 0)
    ensures ("THRESHOLD_CROSSED" in labels) == (flags & FLAG_THRESHOLD_CROSSED != 0)
    ensures forall l :: l in labels ==> l == "NEW_SAMPLE" || l == "THRESHOLD_CROSSED"
    ensures |labels| == 2 ==> labels == ["NEW_SAMPLE", "THRESHOLD_CROSSED"]
    ensures |labels| <= 2
  {
    (if flags & 0x1 != 0 then ["NEW_SAMPLE"] else []) +
    (if flags & 0x2 != 0 then ["THRESHOLD_CROSSED"] else [])
  }

  /** One printed line: the running record number, the decoded sample and
      its flag names (the Celsius conversion and layout are not modelled). */
  datatype Line = Line(number: int, sample: Sample, labels: seq<string>)

  function ListingLine(number: int, s: Sample): Line {
    Line(number, s, FlagLabels(s.flags))
  }

  /** `lines` is the decoder's listing of `data`: record k (from 1) of the
      file, in file order, with its flag names. */
  ghost predicate IsListing(data: seq<bv8>, lines: seq<Line>) {
    |lines| == |data| / SAMPLE_SIZE &&
    forall i :: 0 <= i < |lines| ==>
      lines[i] == ListingLine(i + 1, DecodeAll(data)[i])
  }

  /** `lines` lists the first |lines| records of `data`, one line each. */
  ghost predicate ListsRecords(data: seq<bv8>, lines: seq<Line>) {
    |lines| * SAMPLE_SIZE <= |data| &&
    forall i :: 0 <= i < |lines| ==> lines[i] == ListingLine(i + 1, DecodeRecord(RecordAt(data, i)))
  }

  /** Listing the next whole record extends the listing by one line. */
  lemma ListsRecordsExtend(data: seq<bv8>, lines: seq<Line>)
    requires ListsRecords(data, lines) && (|lines| + 1) * SAMPLE_SIZE <= |data|
    ensures ListsRecords(data, lines + [ListingLine(|lines| + 1, DecodeRecord(RecordAt(data, |lines|)))])
  {
  }

  /** A listing of every whole record of the file is the decoder's listing. */
  lemma ListsAllRecords(data: seq<bv8>, lines: seq<Line>)
    requires ListsRecords(data, lines) && |lines| == |data| / SAMPLE_SIZE
    ensures IsListing(data, lines)
  {
    forall i | 0 <= i < |lines|
      ensures lines[i] == ListingLine(i + 1, DecodeAll(data)[i])
    {
      DecodeAllAt(data, i);
    }
  }

  /** The `while (fread(...) == 1)` loop of main: `count` ends equal to the
      number of records listed. */
  method ListSamples(data: seq<bv8>) returns (lines: seq<Line>, count: int)
    ensures IsListing(data, lines)
    ensures count == |lines|
  {
    var pos := 0;
    count := 0;
    lines := [];
    while pos + SAMPLE_SIZE <= |data|
      invariant 0 <= count && pos == count * SAMPLE_SIZE && pos <= |data|
      invariant |lines| == count
      invariant ListsRecords(data, lines)
    {
      var sample := DecodeRecord(data[pos .. pos + SAMPLE_SIZE]);
      assert data[pos .. pos + SAMPLE_SIZE] == RecordAt(data, count);
      ListsRecordsExtend(data, lines);
      count := count + 1;
      lines := lines + [Line(count, sample, FlagLabels(sample.flags))];
      pos := pos + SAMPLE_SIZE;
    }
    assert count == |data| / SAMPLE_SIZE;
    ListsAllRecords(data, lines);
  }

  /** main: with an argument count other than 2 (program name and file), or
      a file that does not open (`file` is None), it exits with 1 and lists
      nothing; otherwise it lists every record and exits with 0. */
  method Run(argc: int, file: Option<seq<bv8>>) returns (exitCode: int, lines: seq<Line>)
    ensures argc != 2 ==> exitCode == 1 && lines == []
    ensures argc == 2 && file.None? ==> exitCode == 1 && lines == []
    ensures argc == 2 && file.Some? ==> exitCode == 0 && IsListing(file.value, lines)
  {
    if argc != 2 {
      return 1, [];
    }
    if file.None? {
      return 1, [];
    }
    var count;
    lines, count := ListSamples(file.value);
    exitCode := 0;
  }
}
