/**
  `getOrientation` of src/utils/util.js: the EXIF orientation of a JPEG file.
  The file is read elsewhere; the model takes its bytes. The first 64 KiB are
  copied into a buffer (`toArrayBuffer`), which is then walked segment by
  segment from the SOI marker (Table B.1, Annex B of ITU-T T.81) until an
  APP1/Exif segment whose first IFD (section 2 of TIFF 6.0) holds the
  Orientation tag 0x0112.
*/
module Orientation {
  import opened Base

  /** A DataView read either gives a value or throws a RangeError past the end
      of the buffer; the exception propagates out of `getOrientation`. */
  datatype Result<+T> = Ok(value: T) | RangeError {
    predicate IsFailure() {
      RangeError?
    }

    function PropagateFailure<U>(): Result<U>
      requires RangeError?
    {
      RangeError
    }

    function Extract(): T
      requires Ok?
    {
      value
    }
  }

  /** Line 125 keeps at most the first 64 KiB of the file. */
  const MaxRead: nat := 64 * 1024

  const SOI: nat := 0xffd8
  const APP1: nat := 0xffe1
  const ExifMagic: nat := 0x45786966
  const LittleEndianMark: nat := 0x4949
  const OrientationTag: nat := 0x0112

  /** `DataView.getUint16(offset, little)`: two bytes, big-endian unless `little`. */
  function GetUint16(buf: seq<bv8>, offset: nat, little: bool): (r: Result<nat>)
    ensures r.Ok? <==> offset + 2 <= |buf|
    ensures r.Ok? ==> r.value < 0x1_0000
  {
    if offset + 2 > |buf| then RangeError
    else if little then Ok(buf[offset + 1] as nat * 0x100 + buf[offset] as nat)
    else Ok(buf[offset] as nat * 0x100 + buf[offset + 1] as nat)
  }

  /** `DataView.getUint32(offset, little)`: four bytes, big-endian unless `little`. */
  function GetUint32(buf: seq<bv8>, offset: nat, little: bool): (r: Result<nat>)
    ensures r.Ok? <==> offset + 4 <= |buf|
    ensures r.Ok? ==> r.value < 0x1_0000_0000
  {
    if offset + 4 > |buf| then RangeError
    else
      var hi := GetUint16(buf, offset, little).value;
      var lo := GetUint16(buf, offset + 2, little).value;
      if little then Ok(lo * 0x1_0000 + hi) else Ok(hi * 0x1_0000 + lo)
  }

  /** Line 153: a 16-bit word starts a marker when its high byte, the part
      the mask 0xFF00 keeps, is 0xFF. */
  predicate IsMarker(word: nat)
  {
    word / 0x100 == 0xff
  }

  /** Lines 148-152: the IFD entries from the `i`-th on, 12 bytes each, are
      searched for the Orientation tag; the first hit gives its 16-bit value
      at offset +8. */
  function ScanEntries(buf: seq<bv8>, entries: nat, tags: nat, little: bool, i: nat): (r: Result<Option<nat>>)
    requires i <= tags
    ensures r.Ok? && r.value.Some? ==> r.value.value < 0x1_0000
    decreases tags - i
  {
    if i == tags then Ok(None)
    else
      var tag :- GetUint16(buf, entries + 12 * i, little);
      if tag == OrientationTag then
        var value :- GetUint16(buf, entries + 12 * i + 8, little);
        Ok(Some(value))
      else
        ScanEntries(buf, entries, tags, little, i + 1)
  }

  /** A value found by the scan is the value field of the first entry, from
      the `i`-th on, that carries the Orientation tag; finding nothing means
      every entry was readable and carried another tag. */
  lemma {:induction false} ScanEntriesFindsFirst(buf: seq<bv8>, entries: nat, tags: nat, little: bool, i: nat)
    requires i <= tags
    ensures var r := ScanEntries(buf, entries, tags, little, i);
      r.Ok? && r.value.Some? ==>
        exists j :: i <= j < tags && FirstOrientationEntry(buf, entries, little, i, j) &&
                    GetUint16(buf, entries + 12 * j + 8, little) == Ok(r.value.value)
    ensures var r := ScanEntries(buf, entries, tags, little, i);
      r.Ok? && r.value.None? ==> forall j :: i <= j < tags ==> IsOtherEntry(buf, entries, little, j)
    decreases tags - i
  {
    var r := ScanEntries(buf, entries, tags, little, i);
    if i < tags && GetUint16(buf, entries + 12 * i, little).Ok? {
      if GetUint16(buf, entries + 12 * i, little).value == OrientationTag {
        assert FirstOrientationEntry(buf, entries, little, i, i);
      } else {
        ScanEntriesFindsFirst(buf, entries, tags, little, i + 1);
        assert IsOtherEntry(buf, entries, little, i);
        if r.Ok? && r.value.Some? {
          var j :| i + 1 <= j < tags && FirstOrientationEntry(buf, entries, little, i + 1, j) &&
                   GetUint16(buf, entries + 12 * j + 8, little) == Ok(r.value.value);
          assert FirstOrientationEntry(buf, entries, little, i, j);
        }
      }
    }
  }

  /** Entry `j` is readable and carries a tag other than Orientation. */
  predicate IsOtherEntry(buf: seq<bv8>, entries: nat, little: bool, j: nat)
  {
    var tag := GetUint16(buf, entries + 12 * j, little);
    tag.Ok? && tag.value != OrientationTag
  }

  /** Entry `j` carries the Orientation tag and every entry from `i` up to it
      carries another one. */
  predicate FirstOrientationEntry(buf: seq<bv8>, entries: nat, little: bool, i: nat, j: nat)
  {
    GetUint16(buf, entries + 12 * j, little) == Ok(OrientationTag) &&
    forall k :: i <= k < j ==> IsOtherEntry(buf, entries, little, k)
  }

  /** One pass of the loop body up to the IFD scan: the walk stops with a
      result, goes on at a later offset, or scans the `tags` entries of an IFD
      (and goes on from its first entry if none is the Orientation tag). */
  datatype Step = Done(result: int) | Continue(next: nat) | ScanIfd(entries: nat, tags: nat, little: bool)

  /** The IFD behind an APP1 segment whose Exif header starts at `tiff - 10`:
      its byte order is the one the TIFF header at `tiff` names (little-endian
      exactly for 0x4949), its offset is the 32-bit word at `tiff + 4`, its
      entry count sits just before `entries`. */
  ghost predicate ExifIfdAt(buf: seq<bv8>, tiff: nat, entries: nat, tags: nat, little: bool)
  {
    tiff >= 10 &&
    GetUint16(buf, tiff - 10, false) == Ok(APP1) &&
    GetUint32(buf, tiff - 6, false) == Ok(ExifMagic) &&
    GetUint16(buf, tiff, false).Ok? &&
    little == (GetUint16(buf, tiff, false).value == LittleEndianMark) &&
    GetUint32(buf, tiff + 4, little).Ok? &&
    entries == tiff + GetUint32(buf, tiff + 4, little).value + 2 &&
    GetUint16(buf, entries - 2, little) == Ok(tags)
  }

  /** Lines 140-147: the APP1 segment whose length field is at `o`. Without
      the Exif magic the walk stops with -1; otherwise the first IFD is
      located behind the TIFF header, in the byte order that header names
      (little-endian exactly for 0x4949). */
  function ExifSegment(buf: seq<bv8>, o: nat): (r: Result<Step>)
    ensures r.Ok? && r.value.ScanIfd? ==> r.value.entries >= o + 10
  {
    var magic :- GetUint32(buf, o + 2, false);
    if magic != ExifMagic then Ok(Done(-1))
    else
      var tiff := o + 8;
      var byteOrder :- GetUint16(buf, tiff, false);
      var little := byteOrder == LittleEndianMark;
      var ifd :- GetUint32(buf, tiff + 4, little);
      var tags :- GetUint16(buf, tiff + ifd, little);
      Ok(ScanIfd(tiff + ifd + 2, tags, little))
  }

  /** Lines 136-139 and 153-154, the segment at `offset`: an APP1 segment is
      read as Exif, a word that does not start a marker stops the walk with
      -1, and any other segment is skipped by its length field. */
  function SegmentStep(buf: seq<bv8>, offset: nat): (r: Result<Step>)
    ensures r.Ok? && r.value.Continue? ==> r.value.next > offset
    ensures r.Ok? && r.value.ScanIfd? ==> r.value.entries > offset
  {
    var marker :- GetUint16(buf, offset, false);
    if marker == APP1 then ExifSegment(buf, offset + 2)
    else if !IsMarker(marker) then Ok(Done(-1))
    else
      var length :- GetUint16(buf, offset + 2, false);
      Ok(Continue(offset + 2 + length))
  }

  /** An IFD scan is only ever requested behind an Exif header. */
  lemma SegmentStepScansExifIfd(buf: seq<bv8>, offset: nat)
    ensures var r := SegmentStep(buf, offset);
      r.Ok? && r.value.ScanIfd? ==> ExifIfdAt(buf, offset + 10, r.value.entries, r.value.tags, r.value.little)
  {
    var r := SegmentStep(buf, offset);
    if r.Ok? && r.value.ScanIfd? {
      assert GetUint16(buf, offset, false) == Ok(APP1);
      assert r == ExifSegment(buf, offset + 2);
    }
  }

  /** Lines 135-156: the segment walk from `offset`; running off the end gives
      -1. After an IFD without the Orientation tag the walk goes on from the
      first IFD entry, as the source does. */
  function Walk(buf: seq<bv8>, offset: nat): Result<int>
    decreases |buf| - offset
  {
    if offset >= |buf| then Ok(-1)
    else
      var step :- SegmentStep(buf, offset);
      match step
      case Done(result) => Ok(result)
      case Continue(next) => Walk(buf, next)
      case ScanIfd(entries, tags, little) =>
        var found :- ScanEntries(buf, entries, tags, little, 0);
        if found.Some? then Ok(found.value) else Walk(buf, entries)
  }

  /** The bytes that line 125 keeps. */
  function Truncated(file: seq<bv8>): (buf: seq<bv8>)
    ensures |buf| <= MaxRead && |buf| <= |file| && buf == file[..|buf|]
    ensures |file| <= MaxRead ==> buf == file
  {
    if |file| <= MaxRead then file else file[..MaxRead]
  }

  /** What `getOrientation` returns (or throws) for a file: -2 when it does not
      start with SOI, otherwise the result of the walk from offset 2. */
  function OrientationOf(file: seq<bv8>): Result<int>
  {
    var buf := Truncated(file);
    var soi :- GetUint16(buf, 0, false);
    if soi != SOI then Ok(-2) else Walk(buf, 2)
  }

  // ---------------------------------------------------------------------------
  // What the result means
  // ---------------------------------------------------------------------------

  /** A successful walk gives -1 or a 16-bit value, never -2. */
  lemma {:induction false} WalkResultRange(buf: seq<bv8>, offset: nat)
    ensures Walk(buf, offset).Ok? ==> -1 <= Walk(buf, offset).value < 0x1_0000
    decreases |buf| - offset
  {
    if offset < |buf| {
      var step := SegmentStep(buf, offset);
      if step.Ok? {
        match step.value
        case Done(_) =>
        case Continue(next) =>
          WalkResultRange(buf, next);
        case ScanIfd(entries, tags, little) =>
          WalkResultRange(buf, entries);
      }
    }
  }

  /** `getOrientation` returns -2 exactly when the buffer starts with a 16-bit
      word other than SOI, and throws when it is shorter than two bytes. */
  lemma OrientationNotJpeg(file: seq<bv8>)
    ensures OrientationOf(file) == Ok(-2) <==>
      |Truncated(file)| >= 2 && GetUint16(Truncated(file), 0, false).value != SOI
    ensures |file| < 2 <==> OrientationOf(file) == RangeError && |Truncated(file)| < 2
  {
    WalkResultRange(Truncated(file), 2);
  }

  /** The three ways the walk gives -1: the offset has run past the end, the
      word at the offset does not start a marker, or an APP1 segment lacks the
      Exif magic. */
  lemma WalkStops(buf: seq<bv8>, offset: nat)
    ensures offset >= |buf| ==> Walk(buf, offset) == Ok(-1)
    ensures offset + 2 <= |buf| && !IsMarker(GetUint16(buf, offset, false).value) ==> Walk(buf, offset) == Ok(-1)
    ensures (GetUint16(buf, offset, false) == Ok(APP1) && GetUint32(buf, offset + 4, false).Ok? &&
             GetUint32(buf, offset + 4, false).value != ExifMagic) ==> Walk(buf, offset) == Ok(-1)
  {
  }

  /** `v` is the value of entry `j` of the first IFD behind an APP1 Exif
      header at `tiff - 10`: entry `j` is the first one tagged Orientation and
      `v` is its 16-bit value at +8, read in the IFD's byte order. */
  ghost predicate OrientationEntryValue(buf: seq<bv8>, tiff: nat, j: nat, v: int)
  {
    exists entries: nat, tags: nat, little: bool :: ExifIfdAt(buf, tiff, entries, tags, little) &&
      j < tags && FirstOrientationEntry(buf, entries, little, 0, j) &&
      GetUint16(buf, entries + 12 * j + 8, little) == Ok(v)
  }

  /** A value found by scanning the IFD a segment step asked for is the
      Orientation entry value of the Exif IFD behind that segment. */
  lemma ScannedIfdGivesEntry(buf: seq<bv8>, offset: nat, entries: nat, tags: nat, little: bool, v: nat)
    requires SegmentStep(buf, offset) == Ok(ScanIfd(entries, tags, little))
    requires ScanEntries(buf, entries, tags, little, 0) == Ok(Some(v))
    ensures exists tiff: nat, j: nat :: tiff == offset + 10 && OrientationEntryValue(buf, tiff, j, v)
  {
    ScanEntriesFindsFirst(buf, entries, tags, little, 0);
    SegmentStepScansExifIfd(buf, offset);
    var j :| 0 <= j < tags && FirstOrientationEntry(buf, entries, little, 0, j) &&
             GetUint16(buf, entries + 12 * j + 8, little) == Ok(v);
    assert OrientationEntryValue(buf, offset + 10, j, v);
  }

  /** Every non-negative result of the walk is the Orientation value of an
      Exif IFD found at or after the offset it started from. */
  lemma {:induction false} WalkFindsOrientationEntry(buf: seq<bv8>, offset: nat)
    ensures var r := Walk(buf, offset);
      r.Ok? && r.value >= 0 ==> exists tiff: nat, j: nat :: tiff >= offset + 10 && OrientationEntryValue(buf, tiff, j, r.value)
    decreases |buf| - offset
  {
    var r := Walk(buf, offset);
    if offset < |buf| && SegmentStep(buf, offset).Ok? {
      match SegmentStep(buf, offset).value
      case Done(_) =>
      case Continue(next) =>
        assert r == Walk(buf, next);
        WalkFindsOrientationEntry(buf, next);
        if r.Ok? && r.value >= 0 {
          var tiff: nat, j: nat :| tiff >= next + 10 && OrientationEntryValue(buf, tiff, j, r.value);
          assert tiff >= offset + 10;
        }
      case ScanIfd(entries, tags, little) =>
        var found := ScanEntries(buf, entries, tags, little, 0);
        if found.Ok? && found.value.Some? {
          assert r == Ok(found.value.value);
          ScannedIfdGivesEntry(buf, offset, entries, tags, little, found.value.value);
        } else if found.Ok? {
          assert r == Walk(buf, entries);
          WalkFindsOrientationEntry(buf, entries);
          if r.Ok? && r.value >= 0 {
            var tiff: nat, j: nat :| tiff >= entries + 10 && OrientationEntryValue(buf, tiff, j, r.value);
            assert tiff >= offset + 10;
          }
        }
    }
  }

  /** `toArrayBuffer` (lines 159-166): a fresh buffer holding a copy of the bytes. */
  method ToArrayBuffer(buf: seq<bv8>) returns (ab: array<bv8>)
    ensures fresh(ab)
    ensures ab[..] == buf
  {
    ab := new bv8[|buf|];
    var i := 0;
    while i < |buf|
      invariant 0 <= i <= |buf|
      invariant ab[..i] == buf[..i]
    {
      ab[i] := buf[i];
      i := i + 1;
    }
  }

  /** The inner `for` loop of lines 148-152 over the `tags` entries of an IFD. */
  method FindOrientationEntry(view: seq<bv8>, entries: nat, tags: nat, little: bool) returns (r: Result<Option<nat>>)
    ensures r == ScanEntries(view, entries, tags, little, 0)
  {
    var i := 0;
    while i < tags
      invariant i <= tags
      invariant ScanEntries(view, entries, tags, little, i) == ScanEntries(view, entries, tags, little, 0)
    {
      var tag :- GetUint16(view, entries + 12 * i, little);
      if tag == OrientationTag {
        var value :- GetUint16(view, entries + 12 * i + 8, little);
        return Ok(Some(value));
      }
      i := i + 1;
    }
    return Ok(None);
  }

  /** The body of the `while` loop (lines 136-147 and 153-154) for the
      segment at `offset`: `Done` where the source returns or breaks (a break
      is followed by `return -1`), `Continue` with the offset the next pass
      starts from, `ScanIfd` where the inner `for` loop runs next. */
  method NextSegment(view: seq<bv8>, offset: nat) returns (r: Result<Step>)
    ensures r == SegmentStep(view, offset)
  {
    var marker :- GetUint16(view, offset, false);
    var cursor := offset + 2;
    if marker == APP1 {
      r := ReadExifSegment(view, cursor);
    } else if !IsMarker(marker) {
      r := Ok(Done(-1));
    } else {
      var length :- GetUint16(view, cursor, false);
      cursor := cursor + length;
      r := Ok(Continue(cursor));
    }
  }

  /** Lines 140-147 with the source's running cursor: the Exif header of the
      APP1 segment whose length field is at `o`. */
  method ReadExifSegment(view: seq<bv8>, o: nat) returns (r: Result<Step>)
    ensures r == ExifSegment(view, o)
  {
    var cursor := o + 2;
    var magic :- GetUint32(view, cursor, false);
    if magic != ExifMagic {
      return Ok(Done(-1));
    }
    cursor := cursor + 6;
    var byteOrder :- GetUint16(view, cursor, false);
    var little := byteOrder == LittleEndianMark;
    var ifd :- GetUint32(view, cursor + 4, little);
    cursor := cursor + ifd;
    var tags :- GetUint16(view, cursor, little);
    cursor := cursor + 2;
    assert cursor == o + 8 + ifd + 2;
    assert GetUint32(view, o + 2, false) == Ok(ExifMagic);
    assert GetUint16(view, o + 8, false) == Ok(byteOrder);
    assert GetUint32(view, o + 12, little) == Ok(ifd);
    assert GetUint16(view, o + 8 + ifd, little) == Ok(tags);
    r := Ok(ScanIfd(cursor, tags, little));
  }

  /** `getOrientation` (lines 124-157): the file's first 64 KiB are copied into
      a buffer, the SOI word is checked, and segments are walked while the
      offset is inside the buffer. */
  method GetOrientation(file: seq<bv8>) returns (r: Result<int>)
    ensures r == OrientationOf(file)
  {
    var result := Truncated(file);
    var ab := ToArrayBuffer(result);
    var view := ab[..];
    var soi :- GetUint16(view, 0, false);
    if soi != SOI {
      return Ok(-2);
    }
    var length := |view|;
    var offset := 2;
    while offset < length
      invariant Walk(view, offset) == Walk(view, 2)
      decreases length - offset
    {
      var step :- NextSegment(view, offset);
      match step
      case Done(result) =>
        return Ok(result);
      case Continue(next) =>
        offset := next;
      case ScanIfd(entries, tags, little) =>
        var found :- FindOrientationEntry(view, entries, tags, little);
        if found.Some? {
          return Ok(found.value);
        }
        offset := entries;
    }
    return Ok(-1);
  }
}
