/**
 * The CSV-to-AGG3 conversion of data.go (fastZipToAgg3). After the header
 * line, a state machine walks the bytes: each ',' hands the column just
 * ended to the column switch, which packs it into a reused 48-byte row
 * buffer; each '\n' sets the maker flag from the last column and appends
 * the buffer to the blob. The specification below says the same thing a
 * line and a column at a time; the scanning method is proved equal to it.
 */
module DataCsv {
  import opened Bytes
  import opened Layout
  import opened DataParse

  const COMMA: byte := 0x2C
  const NEWLINE: byte := 0x0A
  const LOWER_T: byte := 0x74
  const UPPER_T: byte := 0x54
  const MAX_I64: i64 := 0x7FFF_FFFF_FFFF_FFFF
  const MIN_I64: i64 := -0x8000_0000_0000_0000

  /** The pieces of s between occurrences of sep, in order (strings.Split
      as the state machine sees it). */
  function SplitOn(s: seq<byte>, sep: byte): (parts: seq<seq<byte>>)
    ensures |parts| >= 1
  {
    if s == [] then [[]]
    else
      var p := SplitOn(s[..|s| - 1], sep);
      var c := s[|s| - 1];
      if c == sep then p + [[]]
      else p[..|p| - 1] + [p[|p| - 1] + [c]]
  }

  /** The pieces put back together with the separator between them. */
  function Join(parts: seq<seq<byte>>, sep: byte): seq<byte>
    requires |parts| >= 1
  {
    if |parts| == 1 then parts[0]
    else Join(parts[..|parts| - 1], sep) + [sep] + parts[|parts| - 1]
  }

  /** A separator at the end starts a new, empty piece. */
  lemma JoinNewPiece(p: seq<seq<byte>>, sep: byte)
    requires |p| >= 1
    ensures Join(p + [[]], sep) == Join(p, sep) + [sep]
  {
    var q := p + [[]];
    assert q[..|q| - 1] == p;
    assert Join(p, sep) + [sep] + [] == Join(p, sep) + [sep];
  }

  /** Any other byte extends the last piece. */
  lemma JoinExtendLast(p: seq<seq<byte>>, c: byte, sep: byte)
    requires |p| >= 1
    ensures Join(p[..|p| - 1] + [p[|p| - 1] + [c]], sep) == Join(p, sep) + [c]
  {
    var q := p[..|p| - 1] + [p[|p| - 1] + [c]];
    if |p| > 1 {
      assert q[..|q| - 1] == p[..|p| - 1];
      var j := Join(p[..|p| - 1], sep);
      assert j + [sep] + (p[|p| - 1] + [c]) == j + [sep] + p[|p| - 1] + [c];
    }
  }

  /** Joining the pieces with the separator gives s back. */
  lemma {:induction false} SplitJoin(s: seq<byte>, sep: byte)
    ensures Join(SplitOn(s, sep), sep) == s
  {
    if s != [] {
      var s' := s[..|s| - 1];
      var c := s[|s| - 1];
      SplitJoin(s', sep);
      assert s == s' + [c];
      if c == sep {
        JoinNewPiece(SplitOn(s', sep), sep);
      } else {
        JoinExtendLast(SplitOn(s', sep), c, sep);
      }
    }
  }

  /** The last piece is what follows the last separator. */
  lemma {:induction false} SplitLast(s: seq<byte>, sep: byte)
    ensures var parts := SplitOn(s, sep);
      |parts[|parts| - 1]| <= |s| && parts[|parts| - 1] == s[|s| - |parts[|parts| - 1]|..]
  {
    if s != [] {
      var s' := s[..|s| - 1];
      SplitLast(s', sep);
      var p := SplitOn(s', sep);
      var last := p[|p| - 1];
      assert s' [|s'| - |last|..] == last;
      if s[|s| - 1] != sep {
        assert s[|s| - |last| - 1..] == s'[|s'| - |last|..] + [s[|s| - 1]];
      }
    }
  }

  /** The row buffer and the running time-stamp bounds. */
  datatype Acc = Acc(row: seq<byte>, minTs: i64, maxTs: i64)

  function InitAcc(): (a: Acc)
    ensures |a.row| == RowSize
  {
    Acc(Zeros(RowSize), MAX_I64, MIN_I64)
  }

  /** The number a column holds: price (1) and quantity (2) in fixed
      point scaled by 1e8, every other column as an unsigned integer. */
  function ColumnValue(col: nat, field: seq<byte>): u64
  {
    if col == 1 || col == 2 then ParseFixedSpec(field) else ParseUintSpec(field)
  }

  /** The column switch: columns 0 to 3 (aggregate id, price, quantity,
      first trade id) are stored as u64 at 8 * col; column 4, the last
      trade id, is stored as the trade count last - first + 1 in uint32 at
      32, with the first id read back from the buffer; column 5, the time
      stamp, is stored at 38 and widens the bounds; later comma-terminated
      columns are ignored. */
  function StoreColumn(a: Acc, col: nat, v: u64): (r: Acc)
    requires |a.row| == RowSize
    ensures |r.row| == RowSize && r.row[46..] == a.row[46..]
    ensures r.minTs <= a.minTs && r.maxTs >= a.maxTs
  {
    if col < 4 then a.(row := Splice(a.row, 8 * col, LE(v, 8)))
    else if col == 4 then
      var fid: int := GetU64(a.row, 24);
      a.(row := Splice(a.row, 32, LE(ToU32(v - fid + 1), 4)))
    else if col == 5 then
      var t := ToI64(v);
      Acc(Splice(a.row, 38, LE(v, 8)), Min(a.minTs, t), Max(a.maxTs, t))
    else a
  }

  function ApplyColumn(a: Acc, col: nat, field: seq<byte>): (r: Acc)
    requires |a.row| == RowSize
    ensures |r.row| == RowSize && r.row[46..] == a.row[46..]
    ensures r.minTs <= a.minTs && r.maxTs >= a.maxTs
  {
    StoreColumn(a, col, ColumnValue(col, field))
  }

  /** The comma-terminated columns of one line, in order. */
  function ApplyColumns(a: Acc, fields: seq<seq<byte>>): (r: Acc)
    requires |a.row| == RowSize
    ensures |r.row| == RowSize && r.row[46..] == a.row[46..]
    ensures r.minTs <= a.minTs && r.maxTs >= a.maxTs
  {
    if fields == [] then a
    else ApplyColumn(ApplyColumns(a, fields[..|fields| - 1]), |fields| - 1, fields[|fields| - 1])
  }

  /** The maker flag: 1 when the last column starts with 't' or 'T'. */
  function FlagOf(field: seq<byte>): u16
  {
    if |field| > 0 && (field[0] == LOWER_T || field[0] == UPPER_T) then 1 else 0
  }

  /** The row with the flag of the last column written at byte 36. */
  function FlagRow(row: seq<byte>, last: seq<byte>): (r: seq<byte>)
    requires |row| == RowSize
    ensures |r| == RowSize && r[46..] == row[46..]
  {
    Splice(row, 36, LE(FlagOf(last), 2))
  }

  function EndRow(a: Acc, last: seq<byte>): (r: Acc)
    requires |a.row| == RowSize
    ensures |r.row| == RowSize && r.row[46..] == a.row[46..]
    ensures r.minTs == a.minTs && r.maxTs == a.maxTs
  {
    a.(row := FlagRow(a.row, last))
  }

  /** One line: its comma-terminated columns, then the flag from what
      follows the last comma. */
  function LineAcc(a: Acc, line: seq<byte>): (r: Acc)
    requires |a.row| == RowSize
    ensures |r.row| == RowSize && r.row[46..] == a.row[46..]
    ensures r.minTs <= a.minTs && r.maxTs >= a.maxTs
  {
    var f := SplitOn(line, COMMA);
    EndRow(ApplyColumns(a, f[..|f| - 1]), f[|f| - 1])
  }

  /** The blob so far, its row count and the buffer state after it. */
  datatype Scan = Scan(acc: Acc, blob: seq<byte>, count: nat)

  /** Newline-terminated lines: each appends the row buffer as it stands
      after the line. */
  function ScanLines(lines: seq<seq<byte>>): (s: Scan)
    ensures |s.acc.row| == RowSize && s.acc.row[46..] == [0, 0]
    ensures s.count == |lines| && |s.blob| == RowSize * s.count
  {
    if lines == [] then Scan(InitAcc(), [], 0)
    else
      var s := ScanLines(lines[..|lines| - 1]);
      var a := LineAcc(s.acc, lines[|lines| - 1]);
      Scan(a, s.blob + a.row, s.count + 1)
  }

  /** What the scanner holds after reading w from the start of the body:
      the rows of the complete lines, the buffer after the comma-terminated
      columns of the current line, the index of the column being read and
      its bytes so far. */
  datatype Partial = Partial(acc: Acc, blob: seq<byte>, count: nat, colIdx: nat, col: seq<byte>)

  /** One byte of the state machine: ',' ends a column, '\n' ends a row,
      anything else extends the current column. */
  function Feed(p: Partial, c: byte): (q: Partial)
    requires |p.acc.row| == RowSize
    ensures |q.acc.row| == RowSize && q.acc.row[46..] == p.acc.row[46..]
    ensures |p.blob| == RowSize * p.count ==> |q.blob| == RowSize * q.count
  {
    if c == COMMA then
      p.(acc := ApplyColumn(p.acc, p.colIdx, p.col), colIdx := p.colIdx + 1, col := [])
    else if c == NEWLINE then
      var a := EndRow(p.acc, p.col);
      Partial(a, p.blob + a.row, p.count + 1, 0, [])
    else p.(col := p.col + [c])
  }

  /** The byte-by-byte reading: the state machine fed the bytes of w. */
  function Progress(w: seq<byte>): (p: Partial)
    ensures |p.acc.row| == RowSize && p.acc.row[46..] == [0, 0]
    ensures |p.blob| == RowSize * p.count
  {
    if w == [] then Partial(InitAcc(), [], 0, 0, [])
    else Feed(Progress(w[..|w| - 1]), w[|w| - 1])
  }

  /** The same state read a line and a column at a time. */
  function LinesProgress(w: seq<byte>): (p: Partial)
    ensures |p.acc.row| == RowSize && p.acc.row[46..] == [0, 0]
    ensures |p.blob| == RowSize * p.count
  {
    var lines := SplitOn(w, NEWLINE);
    var done := ScanLines(lines[..|lines| - 1]);
    var f := SplitOn(lines[|lines| - 1], COMMA);
    Partial(ApplyColumns(done.acc, f[..|f| - 1]), done.blob, done.count, |f| - 1, f[|f| - 1])
  }

  /** The whole body after the header line. A last line without '\n'
      yields a row only when it has exactly seven columns and the seventh
      is not empty; its comma-terminated columns are still scanned, so
      they still widen the time-stamp bounds. */
  function ScanBody(body: seq<byte>): (s: Scan)
    ensures |s.acc.row| == RowSize && |s.blob| == RowSize * s.count
  {
    var p := Progress(body);
    if p.colIdx == 6 && |p.col| > 0 then
      var a := EndRow(p.acc, p.col);
      Scan(a, p.blob + a.row, p.count + 1)
    else Scan(p.acc, p.blob, p.count)
  }

  /** Index of the first '\n', or |s| when there is none. */
  function FirstNewline(s: seq<byte>): (k: nat)
    ensures k <= |s| && (k < |s| ==> s[k] == NEWLINE)
    ensures forall j :: 0 <= j < k ==> s[j] != NEWLINE
  {
    if s == [] then 0 else if s[0] == NEWLINE then 0 else 1 + FirstNewline(s[1..])
  }

  /** Where the body starts: after the first '\n', or at the end. */
  function BodyStart(data: seq<byte>): (k: nat)
    ensures k <= |data|
  {
    var j := FirstNewline(data);
    if j < |data| then j + 1 else |data|
  }

  /** Nothing read yet: the zeroed buffer, no rows. */
  lemma LinesProgressEmpty()
    ensures LinesProgress([]) == Partial(InitAcc(), [], 0, 0, [])
  {
  }

  /** A byte other than ',' and '\n' only extends the current column. */
  lemma StepOther(w: seq<byte>, c: byte)
    requires c != COMMA && c != NEWLINE
    ensures var p := LinesProgress(w);
      LinesProgress(w + [c]) == p.(col := p.col + [c])
  {
    var lines := SplitOn(w, NEWLINE);
    assert (w + [c])[..|w|] == w;
    var lines' := SplitOn(w + [c], NEWLINE);
    assert lines' == lines[..|lines| - 1] + [lines[|lines| - 1] + [c]];
    assert lines'[..|lines'| - 1] == lines[..|lines| - 1];
    var cur := lines[|lines| - 1];
    var f := SplitOn(cur, COMMA);
    assert (cur + [c])[..|cur|] == cur;
    var f' := SplitOn(cur + [c], COMMA);
    assert f' == f[..|f| - 1] + [f[|f| - 1] + [c]];
    assert f'[..|f'| - 1] == f[..|f| - 1];
  }

  /** A ',' hands the current column to the column switch. */
  lemma StepComma(w: seq<byte>)
    ensures var p := LinesProgress(w);
      LinesProgress(w + [COMMA])
        == p.(acc := ApplyColumn(p.acc, p.colIdx, p.col), colIdx := p.colIdx + 1, col := [])
  {
    var lines := SplitOn(w, NEWLINE);
    assert (w + [COMMA])[..|w|] == w;
    var lines' := SplitOn(w + [COMMA], NEWLINE);
    assert lines' == lines[..|lines| - 1] + [lines[|lines| - 1] + [COMMA]];
    assert lines'[..|lines'| - 1] == lines[..|lines| - 1];
    var cur := lines[|lines| - 1];
    var f := SplitOn(cur, COMMA);
    assert (cur + [COMMA])[..|cur|] == cur;
    var f' := SplitOn(cur + [COMMA], COMMA);
    assert f' == f + [[]];
    assert f'[..|f'| - 1] == f;
    assert f[..|f| - 1 + 1][..|f| - 1] == f[..|f| - 1];
    assert f == f[..|f| - 1] + [f[|f| - 1]];
  }

  /** A '\n' sets the flag from the current column and appends the row. */
  lemma StepNewline(w: seq<byte>)
    ensures var p := LinesProgress(w);
      var a := EndRow(p.acc, p.col);
      LinesProgress(w + [NEWLINE]) == Partial(a, p.blob + a.row, p.count + 1, 0, [])
  {
    var lines := SplitOn(w, NEWLINE);
    assert (w + [NEWLINE])[..|w|] == w;
    var lines' := SplitOn(w + [NEWLINE], NEWLINE);
    assert lines' == lines + [[]];
    assert lines'[..|lines'| - 1] == lines;
    assert lines[..|lines| - 1 + 1][..|lines| - 1] == lines[..|lines| - 1];
    assert lines == lines[..|lines| - 1] + [lines[|lines| - 1]];
  }

  /** The state machine reads the body exactly as the line-level
      description does. */
  lemma {:induction false} ProgressByLines(w: seq<byte>)
    ensures Progress(w) == LinesProgress(w)
  {
    if w == [] {
      LinesProgressEmpty();
    } else {
      var w', c := w[..|w| - 1], w[|w| - 1];
      assert w == w' + [c];
      ProgressByLines(w');
      if c == COMMA {
        StepComma(w');
      } else if c == NEWLINE {
        StepNewline(w');
      } else {
        StepOther(w', c);
      }
    }
  }

  /** One step of the loop, for the body read up to i inside data. */
  lemma SliceSnoc(data: seq<byte>, j: nat, i: nat)
    requires j <= i < |data|
    ensures data[j..i + 1] == data[j..i] + [data[i]]
  {
  }

  lemma ProgressAt(data: seq<byte>, bs: nat, i: nat)
    requires bs <= i < |data|
    ensures Progress(data[bs..i + 1]) == Feed(Progress(data[bs..i]), data[i])
  {
    var w := data[bs..i + 1];
    assert w[..|w| - 1] == data[bs..i] && w[|w| - 1] == data[i];
  }

  /** There is one piece more than there are separators. */
  lemma {:induction false} SplitCount(s: seq<byte>, sep: byte)
    ensures |SplitOn(s, sep)| == Count(s, sep) + 1
  {
    if s != [] {
      SplitCount(s[..|s| - 1], sep);
    }
  }

  /** The trade a line of seven or more comma-separated pieces describes:
      aggregate id, price, quantity, first id, the count last - first + 1 in
      uint32 and the time stamp reinterpreted as int64 from the first six
      pieces, and the flag from the last piece, the text after the last
      comma. */
  function LineTrade(line: seq<byte>): Trade
    requires |SplitOn(line, COMMA)| >= 7
  {
    var f := SplitOn(line, COMMA);
    ValuesTrade(Values(f[..|f| - 1]), FlagOf(f[|f| - 1]))
  }

  /** The values of the comma-terminated columns of a line. */
  function Values(fields: seq<seq<byte>>): (vs: seq<u64>)
    ensures |vs| == |fields|
  {
    seq(|fields|, k requires 0 <= k < |fields| => ColumnValue(k, fields[k]))
  }

  function ValuesTrade(vs: seq<u64>, flag: u16): Trade
    requires |vs| >= 6
  {
    Trade(vs[0], vs[1], vs[2], vs[3], ToU32(vs[4] as int - vs[3] as int + 1), flag, ToI64(vs[5]))
  }

  /** Stores of a sequence of values, column k getting vs[k]. */
  function StoreColumns(a: Acc, vs: seq<u64>): (r: Acc)
    requires |a.row| == RowSize
    ensures |r.row| == RowSize
  {
    if vs == [] then a else StoreColumn(StoreColumns(a, vs[..|vs| - 1]), |vs| - 1, vs[|vs| - 1])
  }

  /** Scanning columns is parsing each, then storing the values. */
  lemma {:induction false} ColumnsAsValues(a: Acc, fields: seq<seq<byte>>)
    requires |a.row| == RowSize
    ensures ApplyColumns(a, fields) == StoreColumns(a, Values(fields))
  {
    if fields != [] {
      var init := fields[..|fields| - 1];
      ColumnsAsValues(a, init);
      assert Values(fields)[..|fields| - 1] == Values(init);
    }
  }

  /** Values past the sixth change nothing. */
  lemma {:induction false} ExtraValuesIgnored(a: Acc, vs: seq<u64>)
    requires |a.row| == RowSize && |vs| >= 6
    ensures StoreColumns(a, vs) == StoreColumns(a, vs[..6])
  {
    if |vs| > 6 {
      var init := vs[..|vs| - 1];
      ExtraValuesIgnored(a, init);
      assert init[..6] == vs[..6];
    } else {
      assert vs[..6] == vs;
    }
  }

  /** The first k (at most 4) values side by side, 8 bytes each. */
  function Image(vs: seq<u64>): (s: seq<byte>)
    ensures |s| == 8 * |vs|
  {
    if vs == [] then [] else Image(vs[..|vs| - 1]) + LE(vs[|vs| - 1], 8)
  }

  /** Columns 0 to 3 fill the first 8k bytes one after another and leave
      the bounds alone. */
  lemma {:induction false} FirstValues(a: Acc, vs: seq<u64>, k: nat)
    requires |a.row| == RowSize && k <= 4 && k <= |vs|
    ensures StoreColumns(a, vs[..k]) == a.(row := Splice(a.row, 0, Image(vs[..k])))
  {
    if k == 0 {
      assert vs[..0] == [];
    } else {
      FirstValues(a, vs, k - 1);
      assert vs[..k][..k - 1] == vs[..k - 1];
      var img := Image(vs[..k - 1]);
      SpliceAdjacent(a.row, 0, img, LE(vs[k - 1], 8));
    }
  }

  /** The first 36 bytes of a complete row: the four 8-byte values and
      the uint32 count last - first + 1. */
  function Head(vs: seq<u64>): (s: seq<byte>)
    requires |vs| >= 5
    ensures |s| == 36
  {
    Image(vs[..4]) + LE(ToU32(vs[4] as int - vs[3] as int + 1), 4)
  }

  /** The head depends on the first five values only. */
  lemma HeadOfPrefix(vs: seq<u64>, k: nat)
    requires 5 <= k <= |vs|
    ensures Head(vs[..k]) == Head(vs)
  {
    assert vs[..k][..4] == vs[..4];
  }

  lemma AppendAssoc(x: seq<byte>, y: seq<byte>, z: seq<byte>)
    ensures x + (y + z) == x + y + z
  {
  }

  /** Overwriting the middle part of a three-part sequence. */
  lemma SpliceMiddle(head: seq<byte>, x: seq<byte>, tail: seq<byte>, y: seq<byte>)
    requires |x| == |y|
    ensures Splice(head + x + tail, |head|, y) == head + y + tail
  {
    var s := head + x + tail;
    assert s[..|head|] == head;
    assert s[|head| + |y|..] == tail;
  }

  /** A put at offset 0. */
  lemma SpliceFront(buf: seq<byte>, part: seq<byte>)
    requires |part| <= |buf|
    ensures Splice(buf, 0, part) == part + buf[|part|..]
  {
    assert buf[..0] == [];
  }

  /** Column 4 reads the first id back from bytes 24..32 and stores the
      uint32 count last - first + 1 at 32. */
  lemma CountStore(r: Acc, first: u64, last: u64)
    requires |r.row| == RowSize && r.row[24..32] == LE(first, 8)
    ensures StoreColumn(r, 4, last)
      == r.(row := Splice(r.row, 32, LE(ToU32(last as int - first as int + 1), 4)))
  {
    assert GetU64(r.row, 24) == first by {
      Pow256Limits();
      LERoundTrip(first, 8);
    }
  }

  /** One more value is one more store. */
  lemma StoreNext(a: Acc, vs: seq<u64>, k: nat)
    requires |a.row| == RowSize && k < |vs|
    ensures StoreColumns(a, vs[..k + 1]) == StoreColumn(StoreColumns(a, vs[..k]), k, vs[k])
  {
    var w := vs[..k + 1];
    assert w[..|w| - 1] == vs[..k] && w[|w| - 1] == vs[k];
  }

  /** The first four stores fill bytes 0..32 with the image of the values. */
  lemma FirstFour(a: Acc, vs: seq<u64>)
    requires |a.row| == RowSize && |vs| >= 4
    ensures StoreColumns(a, vs[..4]) == a.(row := Image(vs[..4]) + a.row[32..])
  {
    FirstValues(a, vs, 4);
    SpliceFront(a.row, Image(vs[..4]));
  }

  /** Bytes 24..32 of the image hold the fourth value. */
  lemma ImageFourth(vs: seq<u64>)
    requires |vs| >= 4
    ensures Image(vs[..4])[24..32] == LE(vs[3], 8)
  {
    var v4 := vs[..4];
    assert v4[..3] == vs[..3] && v4[3] == vs[3];
    assert Image(v4) == Image(vs[..3]) + LE(vs[3], 8);
  }

  /** Column 4 after the first four: the count goes right after the image. */
  lemma CountAfterImage(a: Acc, vs: seq<u64>)
    requires |a.row| == RowSize && |vs| >= 5
    ensures StoreColumn(a.(row := Image(vs[..4]) + a.row[32..]), 4, vs[4])
      == a.(row := Head(vs) + a.row[36..])
  {
    var img := Image(vs[..4]);
    var r := a.(row := img + a.row[32..]);
    var p := LE(ToU32(vs[4] as int - vs[3] as int + 1), 4);
    assert r.row[24..32] == LE(vs[3], 8) by {
      ImageFourth(vs);
      assert r.row[24..32] == img[24..32];
    }
    CountStore(r, vs[3], vs[4]);
    assert r.row[..32] == img && r.row[36..] == a.row[36..];
    assert Splice(r.row, 32, p) == img + p + a.row[36..];
  }

  /** The first five stores give the 36-byte head. */
  lemma FiveValues(a: Acc, vs: seq<u64>)
    requires |a.row| == RowSize && |vs| >= 5
    ensures StoreColumns(a, vs[..5]) == a.(row := Head(vs) + a.row[36..])
  {
    StoreNext(a, vs, 4);
    FirstFour(a, vs);
    CountAfterImage(a, vs);
  }

  /** The six stores of a complete line: the 36-byte head, two untouched
      bytes, then the time stamp; the bounds take the time stamp in. */
  lemma SixValues(a: Acc, vs: seq<u64>)
    requires |a.row| == RowSize && |vs| == 6
    ensures StoreColumns(a, vs).row == Head(vs) + a.row[36..38] + (LE(vs[5], 8) + a.row[46..])
    ensures StoreColumns(a, vs).minTs == Min(a.minTs, ToI64(vs[5]))
    ensures StoreColumns(a, vs).maxTs == Max(a.maxTs, ToI64(vs[5]))
  {
    var r5 := StoreColumns(a, vs[..5]);
    assert r5 == a.(row := Head(vs) + a.row[36..]) by {
      FiveValues(a, vs);
    }
    assert StoreColumns(a, vs) == StoreColumn(r5, 5, vs[5]) by {
      assert vs[..5] == vs[..|vs| - 1];
    }
    assert r5.row == Head(vs) + a.row[36..38] + a.row[38..46] + a.row[46..] by {
      assert a.row[36..] == a.row[36..38] + a.row[38..46] + a.row[46..];
      AppendAssoc(Head(vs), a.row[36..38] + a.row[38..46], a.row[46..]);
      AppendAssoc(Head(vs), a.row[36..38], a.row[38..46]);
    }
    SpliceMiddle(Head(vs) + a.row[36..38], a.row[38..46], a.row[46..], LE(vs[5], 8));
    AppendAssoc(Head(vs) + a.row[36..38], LE(vs[5], 8), a.row[46..]);
  }

  /** The four 8-byte values of Image, in order. */
  lemma ImageOfFour(vs: seq<u64>)
    requires |vs| == 4
    ensures Image(vs) == LE(vs[0], 8) + LE(vs[1], 8) + LE(vs[2], 8) + LE(vs[3], 8)
  {
    assert vs[..3][..2] == vs[..2] && vs[..2][..1] == vs[..1] && vs[..1][..0] == [];
    assert Image(vs[..1]) == [] + LE(vs[0], 8) == LE(vs[0], 8);
    assert Image(vs[..2]) == LE(vs[0], 8) + LE(vs[1], 8);
    assert Image(vs[..3]) == LE(vs[0], 8) + LE(vs[1], 8) + LE(vs[2], 8);
  }

  /** The stores of six or more values, then the flag: the head, the
      flag, the time stamp, and the two bytes no column writes. */
  lemma ValuesRowBytes(a: Acc, vs: seq<u64>, flag: u16)
    requires |a.row| == RowSize && |vs| >= 6
    ensures Splice(StoreColumns(a, vs).row, 36, LE(flag, 2))
      == Head(vs) + LE(flag, 2) + (LE(vs[5], 8) + a.row[46..])
  {
    var tail := LE(vs[5], 8) + a.row[46..];
    assert StoreColumns(a, vs).row == Head(vs) + a.row[36..38] + tail by {
      ExtraValuesIgnored(a, vs);
      var v6 := vs[..6];
      SixValues(a, v6);
      HeadOfPrefix(vs, 6);
      assert v6[5] == vs[5];
    }
    SpliceMiddle(Head(vs), a.row[36..38], tail, LE(flag, 2));
  }

  /** The head, flag and time stamp bytes are the packed trade. */
  lemma HeadImage(vs: seq<u64>, flag: u16)
    requires |vs| >= 6
    ensures Head(vs) + LE(flag, 2) + LE(vs[5], 8) == RowImage(ValuesTrade(vs, flag))
  {
    ImageOfFour(vs[..4]);
    I64RoundTrip(0, vs[5]);
  }

  /** The stores of six or more values, then the flag, give the packed
      trade of those values. */
  lemma ValuesRow(a: Acc, vs: seq<u64>, flag: u16)
    requires |a.row| == RowSize && |vs| >= 6
    ensures Splice(StoreColumns(a, vs).row, 36, LE(flag, 2))
      == RowImage(ValuesTrade(vs, flag)) + a.row[46..]
  {
    ValuesRowBytes(a, vs, flag);
    HeadImage(vs, flag);
    AppendAssoc(Head(vs) + LE(flag, 2), LE(vs[5], 8), a.row[46..]);
  }

  /** A line of seven or more comma-separated pieces yields exactly the
      packed trade of its pieces, followed by the two bytes the row had
      after offset 46. */
  lemma CompleteLineRow(a: Acc, line: seq<byte>)
    requires |a.row| == RowSize && |SplitOn(line, COMMA)| >= 7
    ensures LineAcc(a, line).row == RowImage(LineTrade(line)) + a.row[46..]
  {
    var f := SplitOn(line, COMMA);
    var vs := Values(f[..|f| - 1]);
    ColumnsAsValues(a, f[..|f| - 1]);
    ValuesRow(a, vs, FlagOf(f[|f| - 1]));
  }

  /** A line without any comma leaves every column of the previous row in
      the buffer and only rewrites the flag: the reused buffer is not
      cleared between rows. */
  lemma NoCommaLineKeepsRow(a: Acc, line: seq<byte>)
    requires |a.row| == RowSize && COMMA !in line
    ensures LineAcc(a, line) == a.(row := FlagRow(a.row, line))
  {
    NoSeparatorOnePiece(line, COMMA);
  }

  /** Without a separator there is a single piece. */
  lemma {:induction false} NoSeparatorOnePiece(s: seq<byte>, sep: byte)
    requires sep !in s
    ensures SplitOn(s, sep) == [s]
  {
    if s != [] {
      NoSeparatorOnePiece(s[..|s| - 1], sep);
      assert s[..|s| - 1] + [s[|s| - 1]] == s;
    }
  }

  /** Once the time-stamp column has been stored, the bounds include it. */
  lemma {:induction false} ValuesCoverTs(a: Acc, vs: seq<u64>)
    requires |a.row| == RowSize && |vs| >= 6
    ensures StoreColumns(a, vs).minTs <= ToI64(vs[5]) <= StoreColumns(a, vs).maxTs
  {
    if |vs| > 6 {
      var init := vs[..|vs| - 1];
      ValuesCoverTs(a, init);
      assert init[5] == vs[5];
    } else {
      assert vs[..5] == vs[..|vs| - 1];
    }
  }

  /** Row k of the blob is the buffer after line k. */
  lemma {:induction false} ScanLinesRow(lines: seq<seq<byte>>, k: nat)
    requires k < |lines|
    ensures ScanLines(lines).blob[RowSize * k..RowSize * (k + 1)]
      == LineAcc(ScanLines(lines[..k]).acc, lines[k]).row
  {
    var init := lines[..|lines| - 1];
    var s := ScanLines(lines);
    var si := ScanLines(init);
    assert s.blob == si.blob + s.acc.row && s.acc == LineAcc(si.acc, lines[|lines| - 1]);
    if k < |lines| - 1 {
      assert init[..k] == lines[..k] && init[k] == lines[k];
      ScanLinesRow(init, k);
      assert s.blob[..|si.blob|] == si.blob;
      SliceOfPrefix(s.blob, si.blob, RowSize * k, RowSize * (k + 1));
    } else {
      assert lines[..k] == init;
      assert s.blob[RowSize * k..RowSize * (k + 1)] == s.acc.row;
    }
  }

  /** The bounds after all lines cover the bounds after any prefix. */
  lemma {:induction false} ScanLinesWidens(lines: seq<seq<byte>>, k: nat)
    requires k <= |lines|
    ensures ScanLines(lines).acc.minTs <= ScanLines(lines[..k]).acc.minTs
    ensures ScanLines(lines).acc.maxTs >= ScanLines(lines[..k]).acc.maxTs
  {
    if k < |lines| {
      var init := lines[..|lines| - 1];
      ScanLinesWidens(init, k);
      assert init[..k] == lines[..k];
    } else {
      assert lines[..k] == lines;
    }
  }

  /** The number of rows: one per '\\n' of the body, plus one for a last
      line without '\\n' of exactly seven columns whose seventh is not
      empty. */
  lemma BodyRowCount(body: seq<byte>)
    ensures var lines := SplitOn(body, NEWLINE);
      var f := SplitOn(lines[|lines| - 1], COMMA);
      ScanBody(body).count == Count(body, NEWLINE) + (if |f| == 7 && |f[6]| > 0 then 1 else 0)
  {
    ProgressByLines(body);
    SplitCount(body, NEWLINE);
  }

  /** A line of seven or more columns among newline-terminated lines is
      the row of its trade, with zero padding. */
  lemma LinesRowImage(lines: seq<seq<byte>>, k: nat)
    requires k < |lines| && |SplitOn(lines[k], COMMA)| >= 7
    ensures ScanLines(lines).blob[RowSize * k..RowSize * (k + 1)]
      == RowImage(LineTrade(lines[k])) + [0, 0]
  {
    ScanLinesRow(lines, k);
    CompleteLineRow(ScanLines(lines[..k]).acc, lines[k]);
  }

  /** ... and the bounds after those lines cover its time stamp. */
  lemma LinesRowTs(lines: seq<seq<byte>>, k: nat)
    requires k < |lines| && |SplitOn(lines[k], COMMA)| >= 7
    ensures ScanLines(lines).acc.minTs <= LineTrade(lines[k]).ts <= ScanLines(lines).acc.maxTs
  {
    var before := ScanLines(lines[..k]).acc;
    LineCoversTs(before, lines[k]);
    ScanLinesNext(lines, k);
    ScanLinesWidens(lines, k + 1);
  }

  /** A line of seven or more columns widens the bounds to its time stamp. */
  lemma LineCoversTs(a: Acc, line: seq<byte>)
    requires |a.row| == RowSize && |SplitOn(line, COMMA)| >= 7
    ensures LineAcc(a, line).minTs <= LineTrade(line).ts <= LineAcc(a, line).maxTs
  {
    var f := SplitOn(line, COMMA);
    ColumnsAsValues(a, f[..|f| - 1]);
    ValuesCoverTs(a, Values(f[..|f| - 1]));
  }

  /** One more line is one more LineAcc. */
  lemma ScanLinesNext(lines: seq<seq<byte>>, k: nat)
    requires k < |lines|
    ensures ScanLines(lines[..k + 1]).acc == LineAcc(ScanLines(lines[..k]).acc, lines[k])
  {
    var w := lines[..k + 1];
    assert w[..|w| - 1] == lines[..k] && w[|w| - 1] == lines[k];
  }

  /** The scan of a body extends the scan of its newline-terminated lines:
      their rows come first and the final bounds cover theirs. */
  lemma BodyExtendsLines(body: seq<byte>)
    ensures var lines := SplitOn(body, NEWLINE);
      var d := ScanLines(lines[..|lines| - 1]);
      var s := ScanBody(body);
      |d.blob| <= |s.blob| && s.blob[..|d.blob|] == d.blob
      && s.acc.minTs <= d.acc.minTs && s.acc.maxTs >= d.acc.maxTs
  {
    ProgressByLines(body);
  }

  lemma SliceOfPrefix(s: seq<byte>, d: seq<byte>, i: nat, j: nat)
    requires |d| <= |s| && s[..|d|] == d && i <= j <= |d|
    ensures s[i..j] == d[i..j]
  {
    forall x | 0 <= x < j - i
      ensures s[i..j][x] == d[i..j][x]
    {
      assert s[i + x] == s[..|d|][i + x];
    }
  }

  /** Every newline-terminated line of seven or more columns is one row
      of the blob that decodes to that line's trade, with zero padding, and
      its time stamp lies within the bounds the scan reports. */
  lemma BodyRow(body: seq<byte>, k: nat)
    requires var lines := SplitOn(body, NEWLINE);
      k < |lines| - 1 && |SplitOn(lines[k], COMMA)| >= 7
    ensures var lines := SplitOn(body, NEWLINE);
      var s := ScanBody(body);
      var t := LineTrade(lines[k]);
      RowSize * (k + 1) <= |s.blob|
      && s.blob[RowSize * k..RowSize * (k + 1)] == RowImage(t) + [0, 0]
      && DecodeTrade(s.blob[RowSize * k..RowSize * (k + 1)]) == t
      && s.acc.minTs <= t.ts <= s.acc.maxTs
  {
    var lines := SplitOn(body, NEWLINE);
    var done := lines[..|lines| - 1];
    var d := ScanLines(done);
    var s := ScanBody(body);
    var t := LineTrade(lines[k]);
    assert done[k] == lines[k];
    BodyExtendsLines(body);
    LinesRowImage(done, k);
    LinesRowTs(done, k);
    SliceOfPrefix(s.blob, d.blob, RowSize * k, RowSize * (k + 1));
    TradeRoundTrip(t, [0, 0]);
  }

  /** The header skip: the index just past the first '\n', or the end. */
  method SkipHeader(data: seq<byte>) returns (i: nat)
    ensures i == BodyStart(data)
  {
    i := 0;
    while i < |data|
      invariant 0 <= i <= |data|
      invariant forall j :: 0 <= j < i ==> data[j] != NEWLINE
    {
      if data[i] == NEWLINE {
        assert FirstNewline(data) == i;
        return i + 1;
      }
      i := i + 1;
    }
  }

  /** The column switch on the reused row buffer. */
  method PutColumn(rowBuf: array<byte>, colIdx: nat, col: seq<byte>, minTs: i64, maxTs: i64)
    returns (minTs': i64, maxTs': i64)
    requires rowBuf.Length == RowSize
    modifies rowBuf
    ensures Acc(rowBuf[..], minTs', maxTs') == ApplyColumn(Acc(old(rowBuf[..]), minTs, maxTs), colIdx, col)
  {
    minTs', maxTs' := minTs, maxTs;
    if colIdx == 0 {
      var v := FastParseUint(col);
      PutLE(rowBuf, 0, v, 8);
    } else if colIdx == 1 {
      var v := FastParseFloatFixed(col);
      PutLE(rowBuf, 8, v, 8);
    } else if colIdx == 2 {
      var v := FastParseFloatFixed(col);
      PutLE(rowBuf, 16, v, 8);
    } else if colIdx == 3 {
      var v := FastParseUint(col);
      PutLE(rowBuf, 24, v, 8);
    } else if colIdx == 4 {
      var fid: int := GetU64(rowBuf[..], 24);
      var lid: int := FastParseUint(col);
      PutLE(rowBuf, 32, ToU32(lid - fid + 1), 4);
    } else if colIdx == 5 {
      var ts := FastParseUint(col);
      PutLE(rowBuf, 38, ts, 8);
      if ToI64(ts) < minTs' {
        minTs' := ToI64(ts);
      }
      if ToI64(ts) > maxTs' {
        maxTs' := ToI64(ts);
      }
    }
  }

  /** The end of a row: the flag from the last column, then the append. */
  method FinishRow(rowBuf: array<byte>, col: seq<byte>, blob: seq<byte>) returns (blob': seq<byte>)
    requires rowBuf.Length == RowSize
    modifies rowBuf
    ensures rowBuf[..] == FlagRow(old(rowBuf[..]), col)
    ensures blob' == blob + rowBuf[..]
  {
    var flags: u16 := 0;
    if |col| > 0 {
      var c := col[0];
      if c == LOWER_T || c == UPPER_T {
        flags := 1;
      }
    }
    PutLE(rowBuf, 36, flags, 2);
    blob' := blob + rowBuf[..];
  }

  /** One byte of the loop: ',' puts the column, '\n' finishes the row,
      anything else extends the column (restart says whether the next
      column starts after this byte). */
  method Consume(rowBuf: array<byte>, ghost p: Partial, b: byte, col: seq<byte>,
                 blob: seq<byte>, count: nat, minTs: i64, maxTs: i64, colIdx: nat)
    returns (blob': seq<byte>, count': nat, minTs': i64, maxTs': i64, colIdx': nat, restart: bool)
    requires rowBuf.Length == RowSize
    requires p == Partial(Acc(rowBuf[..], minTs, maxTs), blob, count, colIdx, col)
    modifies rowBuf
    ensures restart == (b == COMMA || b == NEWLINE)
    ensures Feed(p, b) == Partial(Acc(rowBuf[..], minTs', maxTs'), blob', count', colIdx',
                                  if restart then [] else col + [b])
  {
    blob', count', minTs', maxTs', colIdx' := blob, count, minTs, maxTs, colIdx;
    restart := true;
    if b == COMMA {
      minTs', maxTs' := PutColumn(rowBuf, colIdx, col, minTs, maxTs);
      colIdx' := colIdx + 1;
    } else if b == NEWLINE {
      blob' := FinishRow(rowBuf, col, blob);
      count' := count + 1;
      colIdx' := 0;
    } else {
      restart := false;
    }
  }

  /** The state machine over the body data[bs..]: at the end the buffer,
      bounds, blob, row count and column index are those of Progress, and
      start is where the current column begins. */
  method ScanLoop(data: seq<byte>, bs: nat, rowBuf: array<byte>)
    returns (blob: seq<byte>, count: nat, minTs: i64, maxTs: i64, colIdx: nat, start: nat)
    requires bs < |data| && rowBuf.Length == RowSize && rowBuf[..] == Zeros(RowSize)
    modifies rowBuf
    ensures bs <= start <= |data|
    ensures Progress(data[bs..])
      == Partial(Acc(rowBuf[..], minTs, maxTs), blob, count, colIdx, data[start..])
  {
    minTs, maxTs, count := MAX_I64, MIN_I64, 0;
    blob := [];
    colIdx, start := 0, bs;
    var i, n := bs, |data|;
    assert data[bs..bs] == [];

    ghost var p := Progress(data[bs..i]);
    while i < n
      invariant bs <= start <= i <= n
      invariant p == Progress(data[bs..i])
      invariant p == Partial(Acc(rowBuf[..], minTs, maxTs), blob, count, colIdx, data[start..i])
    {
      var b := data[i];
      assert Progress(data[bs..i + 1]) == Feed(p, b) by {
        ProgressAt(data, bs, i);
      }
      var restart;
      blob, count, minTs, maxTs, colIdx, restart :=
        Consume(rowBuf, p, b, data[start..i], blob, count, minTs, maxTs, colIdx);
      p := Feed(p, b);
      if restart {
        start := i + 1;
      } else {
        SliceSnoc(data, start, i);
      }
      i := i + 1;
    }
    assert data[bs..n] == data[bs..];
    assert data[start..n] == data[start..];
  }

  /** The scanning part of fastZipToAgg3, from the header skip to the
      handling of a last line without '\n'. */
  method ScanCsv(data: seq<byte>) returns (blob: seq<byte>, count: nat, minTs: i64, maxTs: i64)
    ensures var s := ScanBody(data[BodyStart(data)..]);
      blob == s.blob && count == s.count && minTs == s.acc.minTs && maxTs == s.acc.maxTs
  {
    var rowBuf := new byte[RowSize](_ => 0);
    assert rowBuf[..] == Zeros(RowSize);
    var n := |data|;
    var i := SkipHeader(data);
    if i == n {
      // No body: the loop does not run and colIdx stays 0.
      assert data[i..] == [];
      return [], 0, MAX_I64, MIN_I64;
    }
    var colIdx, start;
    blob, count, minTs, maxTs, colIdx, start := ScanLoop(data, i, rowBuf);

    // A last line without '\n'.
    if colIdx == 6 && start < n {
      blob := FinishRow(rowBuf, data[start..n], blob);
      count := count + 1;
    }
  }
}
