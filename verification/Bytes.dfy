/** Bytes and big-endian integers, as `struct` packs them. */
module Bytes {

  type Byte = b: nat | b < 256

  /** 256 to the power `width`. */
  function Span(width: nat): (r: nat)
    ensures r > 0
  {
    if width == 0 then 1 else 256 * Span(width - 1)
  }

  /** The last `width` bytes of `v`, most significant first. */
  function Put(v: nat, width: nat): (s: seq<Byte>)
    ensures |s| == width
  {
    if width == 0 then [] else Put(v / 256, width - 1) + [v % 256]
  }

  /** The number whose bytes, most significant first, are `s`. */
  function Get(s: seq<Byte>): (v: nat)
    ensures v < Span(|s|)
  {
    if s == [] then 0 else 256 * Get(s[..|s| - 1]) + s[|s| - 1]
  }

  lemma {:induction false} GetPut(v: nat, width: nat)
    requires v < Span(width)
    ensures Get(Put(v, width)) == v
  {
    if width > 0 {
      GetPut(v / 256, width - 1);
      assert Put(v, width)[..width - 1] == Put(v / 256, width - 1);
    }
  }

  lemma {:induction false} PutGet(s: seq<Byte>)
    ensures Put(Get(s), |s|) == s
  {
    if s != [] {
      PutGet(s[..|s| - 1]);
      assert s == s[..|s| - 1] + [s[|s| - 1]];
    }
  }

  lemma {:induction false} Spans()
    ensures Span(1) == 0x100 && Span(2) == 0x1_0000 && Span(4) == 0x1_0000_0000
    ensures Span(8) == 0x1_0000_0000_0000_0000
  {
    assert Span(4) == 256 * (256 * Span(2));
    assert Span(8) == 256 * (256 * Span(6)) && Span(6) == 256 * (256 * Span(4));
  }

  lemma {:induction false} GetOne(s: seq<Byte>)
    requires |s| == 1
    ensures Get(s) == s[0]
  {
    assert Get(s[..0]) == 0;
  }

  /** The first byte is the most significant one. */
  lemma {:induction false} GetTwo(s: seq<Byte>)
    requires |s| == 2
    ensures var b: seq<nat> := s; Get(s) == 0x100 * b[0] + b[1]
  {
    assert Get(s[..1][..0]) == 0 && Get(s[..1]) == s[0];
  }

  lemma {:induction false} GetThree(s: seq<Byte>)
    requires |s| == 3
    ensures var b: seq<nat> := s;
      Get(s) == 0x1_0000 * b[0] + 0x100 * b[1] + b[2]
  {
    GetTwo(s[..2]);
  }

  lemma {:induction false} GetFour(s: seq<Byte>)
    requires |s| == 4
    ensures var b: seq<nat> := s;
      Get(s) == 0x100_0000 * b[0] + 0x1_0000 * b[1] + 0x100 * b[2] + b[3]
  {
    GetThree(s[..3]);
  }

  lemma {:induction false} GetSix(s: seq<Byte>)
    requires |s| == 6
    ensures var b: seq<nat> := s;
      Get(s) == 0x100_0000_0000 * b[0] + 0x1_0000_0000 * b[1]
                      + 0x100_0000 * b[2] + 0x1_0000 * b[3] + 0x100 * b[4] + b[5]
  {
    GetFour(s[..4]);
    assert s[..5][..4] == s[..4];
    assert Get(s[..5]) == 256 * Get(s[..4]) + s[4];
  }

  lemma {:induction false} GetEight(s: seq<Byte>)
    requires |s| == 8
    ensures var b: seq<nat> := s;
      Get(s) == 0x100_0000_0000_0000 * b[0] + 0x1_0000_0000_0000 * b[1]
                      + 0x100_0000_0000 * b[2] + 0x1_0000_0000 * b[3]
                      + 0x100_0000 * b[4] + 0x1_0000 * b[5] + 0x100 * b[6] + b[7]
  {
    GetSix(s[..6]);
    assert s[..7][..6] == s[..6];
    assert Get(s[..7]) == 256 * Get(s[..6]) + s[6];
  }

  // ----- formats: sequences of unsigned big-endian fields

  function Total(widths: seq<nat>): nat {
    if widths == [] then 0 else widths[0] + Total(widths[1..])
  }

  function PackFields(widths: seq<nat>, values: seq<nat>): (s: seq<Byte>)
    requires |widths| == |values|
    ensures |s| == Total(widths)
  {
    if widths == [] then [] else Put(values[0], widths[0]) + PackFields(widths[1..], values[1..])
  }

  function UnpackFields(widths: seq<nat>, s: seq<Byte>): (values: seq<nat>)
    requires |s| == Total(widths)
    ensures |values| == |widths| && Fit(widths, values)
  {
    if widths == [] then []
    else [Get(s[..widths[0]])] + UnpackFields(widths[1..], s[widths[0]..])
  }

  /** `struct.pack` raises on a value that does not fit its field. */
  ghost predicate Fit(widths: seq<nat>, values: seq<nat>)
    requires |widths| == |values|
  {
    forall i :: 0 <= i < |widths| ==> values[i] < Span(widths[i])
  }

  lemma {:induction false} UnpackPackFields(widths: seq<nat>, values: seq<nat>)
    requires |widths| == |values| && Fit(widths, values)
    ensures UnpackFields(widths, PackFields(widths, values)) == values
  {
    if widths != [] {
      var s := PackFields(widths, values);
      assert s[..widths[0]] == Put(values[0], widths[0]);
      assert s[widths[0]..] == PackFields(widths[1..], values[1..]);
      GetPut(values[0], widths[0]);
      UnpackPackFields(widths[1..], values[1..]);
    }
  }

  lemma {:induction false} PackFirst(widths: seq<nat>, v: nat, values: seq<nat>)
    requires widths != [] && |values| == |widths| - 1
    ensures PackFields(widths, [v] + values) == Put(v, widths[0]) + PackFields(widths[1..], values)
  {
    assert ([v] + values)[1..] == values;
  }

  lemma {:induction false} PackUnpackFields(widths: seq<nat>, s: seq<Byte>)
    requires |s| == Total(widths)
    ensures PackFields(widths, UnpackFields(widths, s)) == s
  {
    if widths != [] {
      var first, rest := s[..widths[0]], s[widths[0]..];
      PackUnpackFields(widths[1..], rest);
      PackFirst(widths, Get(first), UnpackFields(widths[1..], rest));
      PutGet(first);
      assert s == first + rest;
    }
  }

  /** The bytes of the fields, one behind the other. */
  function Pieces(widths: seq<nat>, s: seq<Byte>): (pieces: seq<seq<Byte>>)
    requires |s| == Total(widths)
    ensures |pieces| == |widths|
  {
    if widths == [] then [] else [s[..widths[0]]] + Pieces(widths[1..], s[widths[0]..])
  }

  lemma {:induction false} FieldOfPiece(widths: seq<nat>, s: seq<Byte>, i: nat)
    requires i < |widths| && |s| == Total(widths)
    ensures UnpackFields(widths, s)[i] == Get(Pieces(widths, s)[i])
    decreases i
  {
    if i > 0 {
      FieldOfPiece(widths[1..], s[widths[0]..], i - 1);
    }
  }

  lemma {:induction false} SliceOfRest(s: seq<Byte>, off: nat, from: nat, to: nat)
    requires off <= from <= to <= |s|
    ensures s[off..][from - off..to - off] == s[from..to]
  {
  }

  lemma {:induction false} TotalOfFirst(widths: seq<nat>, i: nat, j: nat)
    requires i + 1 == j <= |widths|
    ensures Total(widths[..j]) == widths[0] + Total(widths[1..][..i])
  {
    assert widths[..j][1..] == widths[1..][..i];
  }

  lemma {:induction false} PieceAt(widths: seq<nat>, s: seq<Byte>, i: nat, from: nat)
    requires i < |widths| && from == Total(widths[..i]) && |s| == Total(widths)
    ensures from + widths[i] <= |s| && Pieces(widths, s)[i] == s[from..from + widths[i]]
    decreases i
  {
    if i > 0 {
      var k, w := i - 1, widths[0];
      TotalOfFirst(widths, k, i);
      PieceAt(widths[1..], s[w..], k, from - w);
      SliceOfRest(s, w, from, from + widths[i]);
    }
  }

  /** A field lies right behind the fields before it. */
  lemma {:induction false} FieldAt(widths: seq<nat>, s: seq<Byte>, i: nat, from: nat)
    requires i < |widths| && from == Total(widths[..i]) && |s| == Total(widths)
    ensures from + widths[i] <= |s| && UnpackFields(widths, s)[i] == Get(s[from..from + widths[i]])
  {
    PieceAt(widths, s, i, from);
    FieldOfPiece(widths, s, i);
  }

  lemma {:induction false} TotalNext(widths: seq<nat>, i: nat)
    requires i < |widths|
    ensures Total(widths[..i + 1]) == Total(widths[..i]) + widths[i]
  {
    if i > 0 {
      assert widths[..i + 1][1..] == widths[1..][..i] && widths[..i][1..] == widths[1..][..i - 1];
      TotalNext(widths[1..], i - 1);
    }
  }

  // ----- format strings

  /** The size of one character of a format; "x" is a byte of padding. */
  function CharSize(c: char): nat {
    match c
    case 'B' => 1
    case 'b' => 1
    case 'x' => 1
    case 'H' => 2
    case 'I' => 4
    case 'Q' => 8
    case _ => 0
  }

  /** `struct.calcsize` of a format without its ">". */
  function CalcSize(format: string): nat {
    if format == "" then 0 else CharSize(format[0]) + CalcSize(format[1..])
  }

  lemma {:induction false} CalcSizeNext(format: string, c: char)
    ensures CalcSize(format + [c]) == CalcSize(format) + CharSize(c)
  {
    if format == "" {
      assert (format + [c])[1..] == "";
    } else {
      assert (format + [c])[1..] == format[1..] + [c];
      CalcSizeNext(format[1..], c);
    }
  }

  lemma {:induction false} CalcSizeJoin(a: string, b: string)
    ensures CalcSize(a + b) == CalcSize(a) + CalcSize(b)
  {
    if a == "" {
      assert a + b == b;
    } else {
      assert (a + b)[1..] == a[1..] + b;
      CalcSizeJoin(a[1..], b);
    }
  }
}
