/** Delta encoding of a batch of rows on unsigned words of a fixed width. */
module DeltaEncoding {

  type Row = seq<nat>

  /** A row of the given width whose words are below `m`, two to the word width. */
  ghost predicate RowFits(r: Row, width: nat, m: nat) {
    |r| == width && forall j :: 0 <= j < width ==> r[j] < m
  }

  ghost predicate Fits(rows: seq<Row>, width: nat, m: nat) {
    forall r :: r in rows ==> RowFits(r, width, m)
  }

  /** Unsigned addition and subtraction, which wrap around at `m`. */
  function Add(a: nat, b: nat, m: nat): (c: nat)
    requires a < m && b < m
    ensures c < m
  {
    if a + b < m then a + b else a + b - m
  }

  function Sub(a: nat, b: nat, m: nat): (c: nat)
    requires a < m && b < m
    ensures c < m
  {
    if a >= b then a - b else a + m - b
  }

  function AddRow(a: Row, b: Row, width: nat, m: nat): (c: Row)
    requires RowFits(a, width, m) && RowFits(b, width, m)
    ensures RowFits(c, width, m)
  {
    seq(width, j requires 0 <= j < width => Add(a[j], b[j], m))
  }

  function SubRow(a: Row, b: Row, width: nat, m: nat): (c: Row)
    requires RowFits(a, width, m) && RowFits(b, width, m)
    ensures RowFits(c, width, m)
  {
    seq(width, j requires 0 <= j < width => Sub(a[j], b[j], m))
  }

  lemma AddSubRow(a: Row, b: Row, width: nat, m: nat)
    requires RowFits(a, width, m) && RowFits(b, width, m)
    ensures AddRow(SubRow(a, b, width, m), b, width, m) == a
    ensures SubRow(AddRow(a, b, width, m), b, width, m) == a
  {
  }

  /** One more row, relative to the row before it. */
  function EncodeNext(before: seq<Row>, row: Row, width: nat, m: nat): (r: Row)
    requires Fits(before, width, m) && RowFits(row, width, m)
    ensures RowFits(r, width, m)
  {
    if before == [] then row else SubRow(row, before[|before| - 1], width, m)
  }

  function DecodeNext(before: seq<Row>, row: Row, width: nat, m: nat): (r: Row)
    requires Fits(before, width, m) && RowFits(row, width, m)
    ensures RowFits(r, width, m)
  {
    if before == [] then row else AddRow(row, before[|before| - 1], width, m)
  }

  lemma NextInverse(before: seq<Row>, row: Row, width: nat, m: nat)
    requires Fits(before, width, m) && RowFits(row, width, m)
    ensures DecodeNext(before, EncodeNext(before, row, width, m), width, m) == row
    ensures EncodeNext(before, DecodeNext(before, row, width, m), width, m) == row
  {
    if before != [] {
      AddSubRow(row, before[|before| - 1], width, m);
    }
  }

  /** Every row but the first as the difference from its predecessor. */
  function Encode(rows: seq<Row>, width: nat, m: nat): (out: seq<Row>)
    requires Fits(rows, width, m)
    ensures Fits(out, width, m) && |out| == |rows|
  {
    if rows == [] then []
    else
      var n := |rows| - 1;
      Encode(rows[..n], width, m) + [EncodeNext(rows[..n], rows[n], width, m)]
  }

  /** Every row as the sum of the differences up to it. */
  function Decode(rows: seq<Row>, width: nat, m: nat): (out: seq<Row>)
    requires Fits(rows, width, m)
    ensures Fits(out, width, m) && |out| == |rows|
  {
    if rows == [] then []
    else
      var n := |rows| - 1;
      var before := Decode(rows[..n], width, m);
      before + [DecodeNext(before, rows[n], width, m)]
  }

  lemma EncodeSnoc(rows: seq<Row>, row: Row, width: nat, m: nat)
    requires Fits(rows, width, m) && RowFits(row, width, m)
    ensures Fits(rows + [row], width, m)
    ensures Encode(rows + [row], width, m) == Encode(rows, width, m) + [EncodeNext(rows, row, width, m)]
  {
    assert (rows + [row])[..|rows|] == rows;
  }

  lemma DecodeSnoc(rows: seq<Row>, row: Row, width: nat, m: nat)
    requires Fits(rows, width, m) && RowFits(row, width, m)
    ensures Fits(rows + [row], width, m)
    ensures var before := Decode(rows, width, m);
      Decode(rows + [row], width, m) == before + [DecodeNext(before, row, width, m)]
  {
    assert (rows + [row])[..|rows|] == rows;
  }

  /** Decoding undoes encoding. */
  lemma {:induction false} DecodeEncode(rows: seq<Row>, width: nat, m: nat)
    requires Fits(rows, width, m)
    ensures Decode(Encode(rows, width, m), width, m) == rows
  {
    if rows != [] {
      var init, last := rows[..|rows| - 1], rows[|rows| - 1];
      assert rows == init + [last];
      DecodeEncode(init, width, m);
      EncodeSnoc(init, last, width, m);
      DecodeSnoc(Encode(init, width, m), EncodeNext(init, last, width, m), width, m);
      NextInverse(init, last, width, m);
    }
  }

  /** The word is the difference of the two, up to a wrap-around. */
  predicate IsDifference(c: nat, a: nat, b: nat, m: nat) {
    c < m && (c + b == a || c + b == a + m)
  }

  ghost predicate RowIsDifference(c: Row, a: Row, b: Row, width: nat, m: nat) {
    |a| == |b| == |c| == width && forall j :: 0 <= j < width ==> IsDifference(c[j], a[j], b[j], m)
  }

  /** What is encoded: the first row as it is, and of every other row the differences from
      its predecessor. */
  lemma {:induction false} EncodedWords(rows: seq<Row>, width: nat, m: nat, i: nat)
    requires Fits(rows, width, m) && i < |rows|
    ensures i == 0 ==> Encode(rows, width, m)[i] == rows[i]
    ensures i > 0 ==> RowIsDifference(Encode(rows, width, m)[i], rows[i], rows[i - 1], width, m)
  {
    var n := |rows| - 1;
    assert rows == rows[..n] + [rows[n]];
    EncodeSnoc(rows[..n], rows[n], width, m);
    if i < n {
      EncodedWords(rows[..n], width, m, i);
    } else if n > 0 {
      assert rows[n] in rows && rows[n - 1] in rows;
      assert Encode(rows, width, m)[n] == SubRow(rows[n], rows[n - 1], width, m);
    }
  }

  /** Encoding undoes decoding, so nothing is lost either way. */
  lemma {:induction false} EncodeDecode(rows: seq<Row>, width: nat, m: nat)
    requires Fits(rows, width, m)
    ensures Encode(Decode(rows, width, m), width, m) == rows
  {
    if rows != [] {
      var init, last := rows[..|rows| - 1], rows[|rows| - 1];
      assert rows == init + [last];
      EncodeDecode(init, width, m);
      var before := Decode(init, width, m);
      DecodeSnoc(init, last, width, m);
      EncodeSnoc(before, DecodeNext(before, last, width, m), width, m);
      NextInverse(before, last, width, m);
    }
  }

  method DeltaRow(row: Row, previous: Row, width: nat, m: nat, encode: bool) returns (out: Row)
    requires RowFits(row, width, m) && RowFits(previous, width, m)
    ensures out == if encode then SubRow(row, previous, width, m) else AddRow(row, previous, width, m)
  {
    out := [];
    for j := 0 to width
      invariant |out| == j
      invariant forall k :: 0 <= k < j ==>
        out[k] == if encode then Sub(row[k], previous[k], m) else Add(row[k], previous[k], m)
    {
      out := out + [if encode then Sub(row[j], previous[j], m) else Add(row[j], previous[j], m)];
    }
  }

  /** The converted batch, in the given direction. */
  ghost function Converted(rows: seq<Row>, width: nat, m: nat, encode: bool): (out: seq<Row>)
    requires Fits(rows, width, m)
    ensures Fits(out, width, m) && |out| == |rows|
  {
    if encode then Encode(rows, width, m) else Decode(rows, width, m)
  }

  lemma ConvertedFirst(src: seq<Row>, width: nat, m: nat, encode: bool)
    requires src != [] && Fits(src, width, m)
    ensures Converted(src[..1], width, m, encode) == [src[0]]
  {
    assert src[..1] == [] + [src[0]];
    EncodeSnoc([], src[0], width, m);
    DecodeSnoc([], src[0], width, m);
  }

  lemma ConvertedNext(src: seq<Row>, i: nat, width: nat, m: nat, encode: bool)
    requires 0 < i < |src| && Fits(src, width, m)
    ensures var before := Converted(src[..i], width, m, encode);
      Converted(src[..i + 1], width, m, encode) ==
        before + [if encode then SubRow(src[i], src[i - 1], width, m) else AddRow(src[i], before[i - 1], width, m)]
  {
    assert src[..i + 1] == src[..i] + [src[i]];
    EncodeSnoc(src[..i], src[i], width, m);
    DecodeSnoc(src[..i], src[i], width, m);
  }

  /** The loop over the rows, for both directions. */
  method DeltaEncode(src: seq<Row>, width: nat, m: nat, encode: bool) returns (dst: seq<Row>)
    requires src != [] && Fits(src, width, m)
    ensures dst == if encode then Encode(src, width, m) else Decode(src, width, m)
  {
    dst := [src[0]];
    ConvertedFirst(src, width, m, encode);
    for i := 1 to |src|
      invariant dst == Converted(src[..i], width, m, encode)
    {
      ConvertedNext(src, i, width, m, encode);
      var row := DeltaRow(src[i], if encode then src[i - 1] else dst[i - 1], width, m, encode);
      dst := dst + [row];
    }
    assert src[..|src|] == src;
  }
}
