/**
 hexdump: rows of up to 16 bytes, laid out in place in a buffer of 100 characters: the bytes in
 hexadecimal, the same bytes as text, and the offset of the row.
 */
module HexDump {

  type Byte = b: int | 0 <= b < 256

  const NUL: char := 0 as char

  // ---------------------------------------------------------------- hexadecimal

  const DIGITS: string := "0123456789ABCDEF"

  function HexDigit(d: nat): (c: char)
    requires d < 16
    ensures IsHex(c) && HexValue(c) == d
  {
    if d < 10 then (48 + d) as char else (55 + d) as char
  }

  lemma DigitIs(d: nat)
    requires d < 16
    ensures HexDigit(d) == DIGITS[d]
  {
  }

  predicate IsHex(c: char) {
    '0' <= c <= '9' || 'A' <= c <= 'F'
  }

  function HexValue(c: char): (d: nat)
    requires IsHex(c)
    ensures d < 16
  {
    if c <= '9' then c as int - 48 else c as int - 55
  }

  /** n with at least w digits */
  function HexText(n: nat, w: nat): (s: seq<char>)
    ensures |s| >= w && forall i :: 0 <= i < |s| ==> IsHex(s[i])
    decreases n + w
  {
    if n == 0 && w == 0 then [] else HexText(n / 16, if w > 0 then w - 1 else 0) + [HexDigit(n % 16)]
  }

  function ParseHex(s: seq<char>): nat
    requires forall i :: 0 <= i < |s| ==> IsHex(s[i])
  {
    if s == [] then 0 else 16 * ParseHex(s[..|s| - 1]) + HexValue(s[|s| - 1])
  }

  lemma {:induction false} ParseText(n: nat, w: nat)
    ensures ParseHex(HexText(n, w)) == n
    decreases n + w
  {
    if n > 0 || w > 0 {
      var s := HexText(n / 16, if w > 0 then w - 1 else 0);
      ParseText(n / 16, if w > 0 then w - 1 else 0);
      assert (s + [HexDigit(n % 16)])[..|s|] == s;
    }
  }

  function Pow16(d: nat): nat {
    if d == 0 then 1 else 16 * Pow16(d - 1)
  }

  lemma {:induction false} TextLength(n: nat, w: nat, d: nat)
    requires n < Pow16(d) && w <= d
    ensures |HexText(n, w)| <= d
    decreases n + w
  {
    if n > 0 || w > 0 { TextLength(n / 16, if w > 0 then w - 1 else 0, d - 1); }
  }

  // ---------------------------------------------------------------- rows

  /** The column of the j-th byte: two digits a byte, and a blank after every fourth */
  function Col(j: nat): nat {
    2 + 2 * j + j / 4
  }

  /** The column of the closing bracket after n bytes */
  function End(n: nat): nat
    requires n > 0
  {
    Col(n - 1) + 2
  }

  const ASCII: nat := 39
  const OFFSET: nat := 56

  function Text(bytes: seq<Byte>, printable: Byte -> bool): (s: seq<char>)
    ensures |s| == |bytes| && forall i :: 0 <= i < |s| ==> s[i] == if printable(bytes[i]) then bytes[i] as char else '.'
  {
    seq(|bytes|, i requires 0 <= i < |bytes| => if printable(bytes[i]) then bytes[i] as char else '.')
  }

  /** The digits of the bytes, with a blank after every fourth byte */
  function HexPart(bytes: seq<Byte>): (s: seq<char>)
    ensures |s| == Col(|bytes|) - 2
  {
    if bytes == [] then [] else
      var n := |bytes| - 1;
      HexPart(bytes[..n]) + [HexDigit(bytes[n] / 16), HexDigit(bytes[n] % 16)] + if |bytes| % 4 == 0 then [' '] else []
  }

  function Blanks(n: nat): (s: seq<char>)
    ensures |s| == n && forall i :: 0 <= i < n ==> s[i] == ' '
  {
    seq(n, _ => ' ')
  }

  function Row(bytes: seq<Byte>, printable: Byte -> bool, offset: nat): (s: seq<char>)
    requires 0 < |bytes| <= 16
    ensures |s| == OFFSET + |HexText(offset, 8)|
  {
    Layout(HexPart(bytes)[..End(|bytes|) - 2], Blanks(ASCII - End(|bytes|) - 1),
           Text(bytes, printable), Blanks(OFFSET - ASCII - |bytes|), HexText(offset, 8))
  }

  function Layout(hex: seq<char>, a: seq<char>, text: seq<char>, b: seq<char>, offset: seq<char>): (s: seq<char>)
    ensures |s| == 3 + |hex| + |a| + |text| + |b| + |offset|
  {
    [' ', '>'] + hex + ['<'] + a + text + b + offset
  }

  /** A reader of rows: the bytes from the j-th on, as long as there is a digit in the byte's column */
  function ReadBytes(row: seq<char>, j: nat): seq<Byte>
    decreases 16 - j
  {
    if j < 16 && Col(j) + 1 < |row| && IsHex(row[Col(j)]) && IsHex(row[Col(j) + 1])
    then [16 * HexValue(row[Col(j)]) + HexValue(row[Col(j) + 1])] + ReadBytes(row, j + 1)
    else []
  }

  lemma {:induction false} HexPartPrefix(bytes: seq<Byte>, j: nat)
    requires j <= |bytes|
    ensures HexPart(bytes[..j]) <= HexPart(bytes)
    decreases |bytes|
  {
    hide Col, HexDigit;
    if j == |bytes| {
      assert bytes[..j] == bytes;
    } else {
      var n := |bytes| - 1;
      HexPartPrefix(bytes[..n], j);
      assert bytes[..n][..j] == bytes[..j];
    }
  }

  /** The digits of the j-th byte are in its column. */
  lemma HexPartAt(bytes: seq<Byte>, j: nat)
    requires j < |bytes|
    ensures Col(j) < Col(|bytes|) - 1
    ensures HexPart(bytes)[Col(j) - 2] == HexDigit(bytes[j] / 16) && HexPart(bytes)[Col(j) - 1] == HexDigit(bytes[j] % 16)
  {
    hide HexPart, HexDigit, Col;
    HexPartPrefix(bytes, j + 1);
    HexPartLast(bytes[..j + 1]);
    assert bytes[..j + 1][j] == bytes[j];
    ColGrows(j, |bytes|);
  }

  lemma HexPartLast(bytes: seq<Byte>)
    requires bytes != []
    ensures var j := |bytes| - 1;
            && 2 <= Col(j) < Col(|bytes|) - 1
            && HexPart(bytes)[Col(j) - 2] == HexDigit(bytes[j] / 16) && HexPart(bytes)[Col(j) - 1] == HexDigit(bytes[j] % 16)
  {
    hide HexDigit, Col;
    var n := |bytes| - 1;
    ColGrows(n, |bytes|);
    HexPartSnoc(bytes);
    hide HexPart;
    var front, two := HexPart(bytes[..n]), [HexDigit(bytes[n] / 16), HexDigit(bytes[n] % 16)];
    assert HexPart(bytes)[|front|] == two[0] && HexPart(bytes)[|front| + 1] == two[1];
  }

  lemma HexPartSnoc(bytes: seq<Byte>)
    requires bytes != []
    ensures var n := |bytes| - 1;
            HexPart(bytes[..n]) + [HexDigit(bytes[n] / 16), HexDigit(bytes[n] % 16)] <= HexPart(bytes)
  {
    hide HexDigit, Col;
  }

  lemma ColGrows(j: nat, n: nat)
    requires j < n
    ensures 2 <= Col(j) < Col(n) - 1
  {
  }

  /** Each piece of a layout is at its columns: e is that of the bracket, n the number of bytes. */
  lemma LayoutAt(h: seq<char>, a: seq<char>, t: seq<char>, b: seq<char>, o: seq<char>, e: nat, n: nat, k: nat)
    requires 2 <= e < ASCII && n <= 16 && k < OFFSET
    requires |h| == e - 2 && |a| == ASCII - e - 1 && |t| == n && |b| == OFFSET - ASCII - n
    ensures var s := Layout(h, a, t, b, o);
            && (2 <= k < e ==> s[k] == h[k - 2])
            && (k == e ==> s[k] == '<')
            && (e < k < ASCII ==> s[k] == a[k - e - 1])
            && (ASCII <= k < ASCII + n ==> s[k] == t[k - ASCII])
            && (ASCII + n <= k ==> s[k] == b[k - ASCII - n])
            && s[0] == ' ' && s[1] == '>' && s[OFFSET..] == o
  {
  }

  /** The columns of a row */
  lemma RowAt(bytes: seq<Byte>, printable: Byte -> bool, offset: nat, k: nat)
    requires 0 < |bytes| <= 16 && k < OFFSET
    ensures var row, n := Row(bytes, printable, offset), |bytes|;
            && (2 <= k < End(n) ==> row[k] == HexPart(bytes)[k - 2])
            && (k == End(n) ==> row[k] == '<')
            && (End(n) < k < ASCII ==> row[k] == ' ')
            && (ASCII <= k < ASCII + n ==> row[k] == if printable(bytes[k - ASCII]) then bytes[k - ASCII] as char else '.')
            && (ASCII + n <= k ==> row[k] == ' ')
  {
    hide HexPart, HexText, HexDigit, Layout, Text, Blanks, End, Col;
    var n, e := |bytes|, End(|bytes|);
    EndColumn(n);
    LayoutAt(HexPart(bytes)[..e - 2], Blanks(ASCII - e - 1), Text(bytes, printable), Blanks(OFFSET - ASCII - n), HexText(offset, 8), e, n, k);
  }

  lemma EndColumn(n: nat)
    requires 0 < n <= 16
    ensures 4 <= End(n) <= 37 && End(n) <= Col(n)
  {
  }

  /** A row reads back as its bytes. */
  lemma {:induction false} ReadRow(bytes: seq<Byte>, printable: Byte -> bool, offset: nat, j: nat)
    requires 0 < |bytes| <= 16 && j <= |bytes|
    ensures ReadBytes(Row(bytes, printable, offset), j) == bytes[j..]
    decreases 16 - j
  {
    hide HexPart, HexText, Row;
    RowAt(bytes, printable, offset, if j < 16 then Col(j) else 0);
    if j < |bytes| {
      ReadRow(bytes, printable, offset, j + 1);
      HexPartAt(bytes, j);
      RowAt(bytes, printable, offset, Col(j) + 1);
    }
  }

  lemma ReadOffset(bytes: seq<Byte>, printable: Byte -> bool, offset: nat)
    requires 0 < |bytes| <= 16
    ensures var row := Row(bytes, printable, offset); row[OFFSET..] == HexText(offset, 8) && ParseHex(row[OFFSET..]) == offset
  {
    hide HexPart, HexText, ParseHex;
    ParseText(offset, 8);
  }

  /** No NUL ends the row early. */
  lemma RowHasNoNul(bytes: seq<Byte>, printable: Byte -> bool, offset: nat, k: nat)
    requires 0 < |bytes| <= 16 && !printable(0) && k < |Row(bytes, printable, offset)|
    ensures Row(bytes, printable, offset)[k] != NUL
  {
    hide HexText, HexPart, Row;
    if k >= OFFSET {
      ReadOffset(bytes, printable, offset);
      assert IsHex(HexText(offset, 8)[k - OFFSET]);
    } else if k < 2 {
      RowStart(bytes, printable, offset);
    } else {
      RowAt(bytes, printable, offset, k);
      if k < End(|bytes|) { HexPartNoNul(bytes, k - 2); }
    }
  }

  lemma RowStart(bytes: seq<Byte>, printable: Byte -> bool, offset: nat)
    requires 0 < |bytes| <= 16
    ensures Row(bytes, printable, offset)[0] == ' ' && Row(bytes, printable, offset)[1] == '>'
  {
  }

  lemma {:induction false} HexPartNoNul(bytes: seq<Byte>, k: nat)
    requires k < |HexPart(bytes)|
    ensures HexPart(bytes)[k] != NUL
  {
    var n := |bytes| - 1;
    if k < |HexPart(bytes[..n])| { HexPartNoNul(bytes[..n], k); }
  }

  // ---------------------------------------------------------------- filling the buffer

  const BUFFER: nat := 100

  /** sprintf (szBuf + at, ...): the text and a NUL */
  method Sprintf(szBuf: array<char>, at: nat, text: seq<char>)
    requires at + |text| < szBuf.Length
    modifies szBuf
    ensures forall k :: 0 <= k < szBuf.Length ==>
              szBuf[k] == if at <= k < at + |text| then text[k - at] else if k == at + |text| then NUL else old(szBuf[k])
  {
    forall k | at <= k < at + |text| { szBuf[k] := text[k - at]; }
    szBuf[at + |text|] := NUL;
  }

  /** The line before any byte is written */
  function Template(offset: nat): (s: seq<char>)
    ensures |s| == OFFSET + |HexText(offset, 8)|
  {
    [' ', '>'] + Blanks(OFFSET - 2) + HexText(offset, 8)
  }

  /** The offset and its NUL are in place. */
  predicate HasOffset(b: seq<char>, offset: nat) {
    var t := HexText(offset, 8);
    OFFSET + |t| < |b| && b[OFFSET..OFFSET + |t|] == t && b[OFFSET + |t|] == NUL
  }

  /** The buffer when j bytes are written; the NUL of the last one remains unless a blank covers it. */
  predicate Filled(b: seq<char>, bytes: seq<Byte>, printable: Byte -> bool, j: nat)
    requires j <= |bytes| <= 16
  {
    && |b| == BUFFER && b[0] == ' ' && b[1] == '>'
    && (forall k :: 0 <= k < Col(j) - 2 ==> b[2 + k] == HexPart(bytes[..j])[k])
    && (forall k :: Col(j) <= k < ASCII ==> b[k] == if k == Col(j) + 1 && j % 4 != 0 then NUL else ' ')
    && (forall k :: ASCII <= k < ASCII + j ==> b[k] == if printable(bytes[k - ASCII]) then bytes[k - ASCII] as char else '.')
    && (forall k :: ASCII + j <= k < OFFSET ==> b[k] == ' ')
  }

  lemma FilledStart(b: seq<char>, bytes: seq<Byte>, printable: Byte -> bool, offset: nat)
    requires |bytes| <= 16 && |b| == BUFFER && |Template(offset)| < BUFFER
    requires forall k :: 0 <= k < |Template(offset)| ==> b[k] == Template(offset)[k]
    requires b[|Template(offset)|] == NUL
    ensures Filled(b, bytes, printable, 0) && HasOffset(b, offset)
  {
  }

  lemma NextColumn(j: nat)
    requires j < 16
    ensures Col(j) >= 2 && Col(j) + 3 < ASCII && Col(j + 1) == Col(j) + if (j + 1) % 4 == 0 then 3 else 2
  {
  }

  /** c is b with one byte more. */
  predicate Stepped(b: seq<char>, c: seq<char>, bytes: seq<Byte>, printable: Byte -> bool, j: nat)
    requires j < |bytes| <= 16
  {
    && |c| == |b| == BUFFER
    && c[Col(j)] == HexDigit(bytes[j] / 16) && c[Col(j) + 1] == HexDigit(bytes[j] % 16) && c[Col(j) + 2] == ' '
    && c[Col(j) + 3] == (if (j + 1) % 4 == 0 then ' ' else NUL)
    && c[ASCII + j] == (if printable(bytes[j]) then bytes[j] as char else '.')
    && (forall k :: 0 <= k < BUFFER && !(Col(j) <= k < Col(j) + 4) && k != ASCII + j ==> c[k] == b[k])
  }

  lemma FilledStep(b: seq<char>, c: seq<char>, bytes: seq<Byte>, printable: Byte -> bool, j: nat)
    requires j < |bytes| <= 16 && Filled(b, bytes, printable, j) && Stepped(b, c, bytes, printable, j)
    ensures Filled(c, bytes, printable, j + 1)
  {
    NextColumn(j);
    var p, h, h' := Col(j), HexPart(bytes[..j]), HexPart(bytes[..j + 1]);
    assert bytes[..j + 1][..j] == bytes[..j];
    assert h' == h + [HexDigit(bytes[j] / 16), HexDigit(bytes[j] % 16)] + if (j + 1) % 4 == 0 then [' '] else [];
    hide HexPart, HexDigit, Col;
    forall k | 0 <= k < Col(j + 1) - 2 ensures c[2 + k] == h'[k] {
      if k < p - 2 { assert h'[k] == h[k]; }
    }
  }

  /** The last NUL gives way to a blank, and the bracket closes the row. */
  lemma FilledRow(b: seq<char>, c: seq<char>, bytes: seq<Byte>, printable: Byte -> bool, offset: nat)
    requires 0 < |bytes| <= 16 && Filled(b, bytes, printable, |bytes|) && HasOffset(b, offset)
    requires c == b[End(|bytes|) := '<'][End(|bytes|) + 1 := ' ']
    ensures var row := Row(bytes, printable, offset); |row| < |c| && c[..|row|] == row && c[|row|] == NUL
  {
    hide HexPart, HexText, Row, Layout;
    var n, row := |bytes|, Row(bytes, printable, offset);
    assert bytes[..n] == bytes;
    EndColumn(n);
    ReadOffset(bytes, printable, offset);
    RowStart(bytes, printable, offset);
    forall k | 0 <= k < |row| ensures c[k] == row[k] {
      if k >= OFFSET {
        assert row[k] == row[OFFSET..][k - OFFSET] && c[k] == b[OFFSET..OFFSET + |HexText(offset, 8)|][k - OFFSET];
      } else if k >= 2 {
        RowAt(bytes, printable, offset, k);
      }
    }
  }

  /** The body of the outer loop: one row of bytes, written in place */
  method FillRow(szBuf: array<char>, bytes: seq<Byte>, printable: Byte -> bool, offset: nat)
    requires szBuf.Length == BUFFER && 0 < |bytes| <= 16 && offset < Pow16(16)
    modifies szBuf
    ensures var row := Row(bytes, printable, offset); |row| < BUFFER && szBuf[..|row|] == row && szBuf[|row|] == NUL
  {
    hide Filled, HasOffset, Row, HexText, Template, HexPart;
    TextLength(offset, 8, 16);
    Sprintf(szBuf, 0, Template(offset));
    FilledStart(szBuf[..], bytes, printable, offset);
    var lIndex, lIndex2, lRelPos := 2, 53 - 15 + 1, 0;
    while lRelPos < |bytes|
      invariant lRelPos <= |bytes| && lIndex == Col(lRelPos) && lIndex2 == ASCII + lRelPos
      invariant Filled(szBuf[..], bytes, printable, lRelPos) && HasOffset(szBuf[..], offset)
    {
      NextColumn(lRelPos);
      lIndex := AddByte(szBuf, lIndex, lIndex2, lRelPos, bytes, printable, offset);
      lRelPos, lIndex2 := lRelPos + 1, lIndex2 + 1;
    }
    NextColumn(|bytes| - 1);
    if lRelPos % 4 == 0 { lIndex := lIndex - 1; }
    CloseRow(szBuf, lIndex, bytes, printable, offset);
  }

  method CloseRow(szBuf: array<char>, lIndex: nat, ghost bytes: seq<Byte>, ghost printable: Byte -> bool, ghost offset: nat)
    requires szBuf.Length == BUFFER && 0 < |bytes| <= 16 && lIndex == End(|bytes|)
    requires Filled(szBuf[..], bytes, printable, |bytes|) && HasOffset(szBuf[..], offset)
    modifies szBuf
    ensures var row := Row(bytes, printable, offset); |row| < BUFFER && szBuf[..|row|] == row && szBuf[|row|] == NUL
  {
    hide Filled, HasOffset, Row;
    EndColumn(|bytes|);
    ghost var b := szBuf[..];
    szBuf[lIndex] := '<';
    szBuf[lIndex + 1] := ' ';
    assert szBuf[..] == b[lIndex := '<'][lIndex + 1 := ' '];
    FilledRow(b, szBuf[..], bytes, printable, offset);
  }

  /** The body of the inner loop: byte j, and the column of the next one */
  method AddByte(szBuf: array<char>, lIndex: nat, lIndex2: nat, j: nat, bytes: seq<Byte>, printable: Byte -> bool, ghost offset: nat) returns (next: nat)
    requires szBuf.Length == BUFFER && j < |bytes| <= 16 && lIndex == Col(j) && lIndex2 == ASCII + j
    requires Filled(szBuf[..], bytes, printable, j) && HasOffset(szBuf[..], offset)
    modifies szBuf
    ensures Filled(szBuf[..], bytes, printable, j + 1) && HasOffset(szBuf[..], offset) && next == Col(j + 1)
  {
    hide Filled, HasOffset, HexDigit;
    NextColumn(j);
    ghost var b := szBuf[..];
    next := lIndex;
    Sprintf(szBuf, next, [HexDigit(bytes[j] / 16), HexDigit(bytes[j] % 16), ' ']);
    var ucTmp := bytes[j];
    szBuf[lIndex2] := if !printable(ucTmp) then '.' else ucTmp as char;
    if (j + 1) % 4 == 0 {
      next := next + 1;
      szBuf[next + 2] := ' ';
    }
    next := next + 2;
    assert Stepped(b, szBuf[..], bytes, printable, j);
    hide Stepped;
    FilledStep(b, szBuf[..], bytes, printable, j);
    OffsetKept(b, szBuf[..], offset);
  }

  lemma OffsetKept(b: seq<char>, c: seq<char>, offset: nat)
    requires HasOffset(b, offset) && |c| == |b| && forall k :: OFFSET <= k < |b| ==> c[k] == b[k]
    ensures HasOffset(c, offset)
  {
  }

  /** printf ("%s"): the characters before the first NUL */
  method Print(szBuf: array<char>, ghost row: seq<char>) returns (printed: seq<char>)
    requires |row| < szBuf.Length && szBuf[..|row|] == row && szBuf[|row|] == NUL && forall k :: 0 <= k < |row| ==> row[k] != NUL
    ensures printed == row
  {
    printed := [];
    var i := 0;
    assert forall k :: 0 <= k < |row| ==> szBuf[..|row|][k] == row[k] == szBuf[k];
    while szBuf[i] != NUL
      invariant i <= |row| && printed == row[..i]
      decreases |row| - i
    {
      printed := printed + [szBuf[i]];
      i := i + 1;
    }
  }

  // ---------------------------------------------------------------- the whole dump

  function Length(n: nat): nat {
    if n > 16 then 16 else n
  }

  function Rows(data: seq<Byte>, printable: Byte -> bool, offset: nat): seq<seq<char>>
    decreases |data|
  {
    if data == [] then [] else
      [Row(data[..Length(|data|)], printable, offset)] + Rows(data[Length(|data|)..], printable, offset + Length(|data|))
  }

  function ReadAll(rows: seq<seq<char>>): seq<Byte> {
    if rows == [] then [] else ReadBytes(rows[0], 0) + ReadAll(rows[1..])
  }

  /** The rows read back as the data. */
  lemma {:induction false} ReadRows(data: seq<Byte>, printable: Byte -> bool, offset: nat)
    ensures ReadAll(Rows(data, printable, offset)) == data
    decreases |data|
  {
    hide Row, ReadBytes;
    if data != [] {
      var n := Length(|data|);
      ReadRow(data[..n], printable, offset, 0);
      ReadRows(data[n..], printable, offset + n);
      assert data[..n] + data[n..] == data;
    }
  }

  /** The text column of a row, as wide as the row has bytes */
  function ReadText(row: seq<char>): seq<char> {
    var n := |ReadBytes(row, 0)|;
    if ASCII + n <= |row| then row[ASCII..ASCII + n] else []
  }

  function ReadTexts(rows: seq<seq<char>>): seq<char> {
    if rows == [] then [] else ReadText(rows[0]) + ReadTexts(rows[1..])
  }

  lemma RowText(bytes: seq<Byte>, printable: Byte -> bool, offset: nat)
    requires 0 < |bytes| <= 16
    ensures var t := ReadText(Row(bytes, printable, offset));
            |t| == |bytes| && forall i :: 0 <= i < |t| ==> t[i] == if printable(bytes[i]) then bytes[i] as char else '.'
  {
    hide Row, ReadBytes;
    ReadRow(bytes, printable, offset, 0);
    assert bytes[0..] == bytes;
    var row, t := Row(bytes, printable, offset), ReadText(Row(bytes, printable, offset));
    assert t == row[ASCII..ASCII + |bytes|];
    forall i | 0 <= i < |t| ensures t[i] == if printable(bytes[i]) then bytes[i] as char else '.' {
      RowAt(bytes, printable, offset, ASCII + i);
    }
  }

  /** The text columns together show every byte: itself if it is printable, and otherwise a dot. */
  lemma {:induction false} RowsText(data: seq<Byte>, printable: Byte -> bool, offset: nat)
    ensures var t := ReadTexts(Rows(data, printable, offset));
            |t| == |data| && forall i :: 0 <= i < |t| ==> t[i] == if printable(data[i]) then data[i] as char else '.'
    decreases |data|
  {
    hide Row, ReadText;
    if data != [] {
      var n := Length(|data|);
      RowText(data[..n], printable, offset);
      RowsText(data[n..], printable, offset + n);
      var first, rest := ReadText(Row(data[..n], printable, offset)), ReadTexts(Rows(data[n..], printable, offset + n));
      assert Rows(data, printable, offset)[1..] == Rows(data[n..], printable, offset + n);
      var t := ReadTexts(Rows(data, printable, offset));
      assert t == first + rest;
      forall i | 0 <= i < |t| ensures t[i] == if printable(data[i]) then data[i] as char else '.' {
        if i >= n { assert t[i] == rest[i - n] && data[n..][i - n] == data[i]; }
      }
    }
  }

  /** A row shows byte b in its place j: its two digits, and itself or a dot as text. */
  predicate Shows(row: seq<char>, j: nat, b: Byte, printable: Byte -> bool) {
    && j < 16 && 64 <= |row| && row[2 + 2 * j + j / 4] == DIGITS[b / 16] && row[3 + 2 * j + j / 4] == DIGITS[b % 16]
    && row[39 + j] == if printable(b) then b as char else '.'
  }

  lemma RowShows(bytes: seq<Byte>, printable: Byte -> bool, offset: nat, j: nat)
    requires j < |bytes| <= 16
    ensures Shows(Row(bytes, printable, offset), j, bytes[j], printable)
  {
    hide HexPart, HexText, Row, HexDigit, DIGITS;
    HexPartAt(bytes, j);
    DigitIs(bytes[j] / 16);
    DigitIs(bytes[j] % 16);
    RowAt(bytes, printable, offset, Col(j));
    RowAt(bytes, printable, offset, Col(j) + 1);
    RowAt(bytes, printable, offset, ASCII + j);
  }

  lemma {:induction false} RowCount(data: seq<Byte>, printable: Byte -> bool, offset: nat)
    ensures |Rows(data, printable, offset)| == (|data| + 15) / 16
    decreases |data|
  {
    hide Row;
    if data != [] { RowCount(data[Length(|data|)..], printable, offset + Length(|data|)); }
  }

  /** Sixteen bytes to a row: byte i is the one in place i % 16 of row i / 16. */
  lemma {:induction false} RowsShow(data: seq<Byte>, printable: Byte -> bool, offset: nat, i: nat)
    requires i < |data|
    ensures i / 16 < |Rows(data, printable, offset)| && Shows(Rows(data, printable, offset)[i / 16], i % 16, data[i], printable)
    decreases |data|
  {
    hide Row, Rows, Shows;
    RowsFirst(data, printable, offset);
    var n := Length(|data|);
    if i < n {
      RowShows(data[..n], printable, offset, i);
      assert data[..n][i] == data[i];
    } else {
      RowsShow(data[n..], printable, offset + n, i - n);
      assert data[n..][i - n] == data[i];
    }
  }

  /** Row i shows the offset 16 * i. */
  lemma {:induction false} ReadOffsets(data: seq<Byte>, printable: Byte -> bool, offset: nat, i: nat)
    requires i < |Rows(data, printable, offset)|
    ensures var row := Rows(data, printable, offset)[i];
            |row| >= 56 && row[56..] == HexText(offset + 16 * i, 8) && ParseHex(row[56..]) == offset + 16 * i
    decreases |data|
  {
    hide Row, HexText, ParseHex;
    var n := Length(|data|);
    if i == 0 {
      ReadOffset(data[..n], printable, offset);
    } else {
      ReadOffsets(data[n..], printable, offset + n, i - 1);
    }
  }

  /** (int) buf.lSize, and at most 16 */
  function OutLen(lSize: nat): int {
    var low := lSize % 0x1_0000_0000;
    var lOutLen := if low < 0x8000_0000 then low else low - 0x1_0000_0000;
    if lOutLen > 16 then 16 else lOutLen
  }

  /** hexdump, for a size that fits an int: the rows, as printed, read back as the data */
  method Dump(data: seq<Byte>, printable: Byte -> bool) returns (rows: seq<seq<char>>)
    requires |data| < 0x8000_0000 && !printable(0)
    ensures rows == Rows(data, printable, 0) && ReadAll(rows) == data
    ensures |rows| == (|data| + 15) / 16
    ensures forall i :: 0 <= i < |data| ==> Shows(rows[i / 16], i % 16, data[i], printable)
    ensures |ReadTexts(rows)| == |data|
    ensures forall i :: 0 <= i < |data| ==> ReadTexts(rows)[i] == if printable(data[i]) then data[i] as char else '.'
  {
    hide Row, Rows, ReadAll, ReadTexts, Shows;
    ReadRows(data, printable, 0);
    RowsText(data, printable, 0);
    RowCount(data, printable, 0);
    forall i | 0 <= i < |data| ensures Shows(Rows(data, printable, 0)[i / 16], i % 16, data[i], printable) {
      RowsShow(data, printable, 0, i);
    }
    rows := [];
    var szBuf := new char[BUFFER];
    var pData, lSize := 0, |data|;
    TopOffset();
    assert data[0..] == data;
    while lSize > 0
      invariant pData + lSize == |data| && 0 <= pData <= |data|
      invariant rows + Rows(data[pData..], printable, pData) == Rows(data, printable, 0)
      decreases lSize
    {
      var lOutLen := OutLen(lSize);
      RowsStep(data, printable, pData);
      var bytes := data[pData..pData + lOutLen];
      var printed := DumpRow(szBuf, bytes, printable, pData);
      rows := rows + [printed];
      pData, lSize := pData + lOutLen, lSize - lOutLen;
    }
    RowsDone(data[pData..], printable, pData);
  }

  lemma RowsStep(data: seq<Byte>, printable: Byte -> bool, p: nat)
    requires p < |data| < 0x8000_0000
    ensures var n := OutLen(|data| - p);
            && 0 < n <= 16 && p + n <= |data|
            && Rows(data[p..], printable, p) == [Row(data[p..p + n], printable, p)] + Rows(data[p + n..], printable, p + n)
  {
    hide Row, Rows, OutLen, Length;
    var n := OutLen(|data| - p);
    OutLenIsLength(|data| - p);
    RowsFirst(data[p..], printable, p);
    assert data[p..][..n] == data[p..p + n] && data[p..][n..] == data[p + n..];
  }

  lemma OutLenIsLength(n: nat)
    requires 0 < n < 0x8000_0000
    ensures OutLen(n) == Length(n) && 0 < Length(n) <= 16 && Length(n) <= n
  {
  }

  lemma RowsFirst(data: seq<Byte>, printable: Byte -> bool, offset: nat)
    requires data != []
    ensures var n := Length(|data|);
            n == (if |data| > 16 then 16 else |data|) && Rows(data, printable, offset) == [Row(data[..n], printable, offset)] + Rows(data[n..], printable, offset + n)
  {
    hide Row;
  }

  lemma RowsDone(data: seq<Byte>, printable: Byte -> bool, offset: nat)
    ensures data == [] ==> Rows(data, printable, offset) == []
  {
  }

  method DumpRow(szBuf: array<char>, bytes: seq<Byte>, printable: Byte -> bool, offset: nat) returns (printed: seq<char>)
    requires szBuf.Length == BUFFER && 0 < |bytes| <= 16 && offset < Pow16(16) && !printable(0)
    modifies szBuf
    ensures printed == Row(bytes, printable, offset)
  {
    hide Row;
    ghost var row := Row(bytes, printable, offset);
    FillRow(szBuf, bytes, printable, offset);
    forall k | 0 <= k < |row| ensures row[k] != NUL { RowHasNoNul(bytes, printable, offset, k); }
    printed := Print(szBuf, row);
  }

  lemma Pow16Grows(a: nat, b: nat)
    requires a <= b
    ensures Pow16(a) <= Pow16(b)
  {
  }

  lemma TopOffset()
    ensures 0x8000_0000 < Pow16(16)
  {
    Pow16Grows(8, 16);
    assert Pow16(4) == 0x1_0000;
    assert Pow16(8) == 0x1_0000_0000;
  }

  /** With at most n rows, each of one to sixteen bytes, the dump gets from lSize to zero. */
  ghost predicate Finishes(lSize: nat, n: nat) {
    lSize == 0 || (n > 0 && 0 < OutLen(lSize) <= 16 && OutLen(lSize) <= lSize && Finishes(lSize - OutLen(lSize), n - 1))
  }

  lemma {:induction false} FinishesSmall(lSize: nat, n: nat)
    requires lSize < 0x8000_0000 && n >= lSize
    ensures Finishes(lSize, n)
  {
    if lSize > 0 { FinishesSmall(lSize - OutLen(lSize), n - 1); }
  }

  lemma {:induction false} NeverFinishes(lSize: nat, n: nat)
    requires lSize >= 0x8000_0000
    ensures !Finishes(lSize, n)
  {
    if n > 0 && 0 < OutLen(lSize) <= lSize { NeverFinishes(lSize - OutLen(lSize), n - 1); }
  }

  /** The dump of lSize bytes comes to its end exactly if the size fits an int; a negative size counts as a large one. */
  lemma FinishesIff(lSize: nat)
    ensures lSize < 0x8000_0000 ==> Finishes(lSize, lSize)
    ensures lSize >= 0x8000_0000 ==> forall n :: !Finishes(lSize, n)
  {
    hide Finishes;
    if lSize < 0x8000_0000 {
      FinishesSmall(lSize, lSize);
    } else {
      forall n: nat ensures !Finishes(lSize, n) { NeverFinishes(lSize, n); }
    }
  }
}
