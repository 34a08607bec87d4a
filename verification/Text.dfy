/** Splitting text at a separator, and joining it again. */
module Text {

  predicate IsSpace(c: char) {
    c == ' ' || c == '\t' || c == '\n' || c == '\r' || c == 11 as char || c == 12 as char
  }

  function StripLeft(s: string): string {
    if s != "" && IsSpace(s[0]) then StripLeft(s[1..]) else s
  }

  function StripRight(s: string): string {
    if s != "" && IsSpace(s[|s| - 1]) then StripRight(s[..|s| - 1]) else s
  }

  function Strip(s: string): string {
    StripRight(StripLeft(s))
  }

  predicate Trimmed(s: string) {
    s != "" ==> !IsSpace(s[0]) && !IsSpace(s[|s| - 1])
  }

  /** The characters that are stripped: the blank, and those from tab to carriage return. */
  lemma {:induction false} SpacesAre(c: char)
    ensures IsSpace(c) <==> c as int == 32 || 9 <= c as int <= 13
  {
  }

  /** All white space at both ends is gone, and nothing else. */
  lemma {:induction false} StripIs(s: string) returns (from: nat, to: nat)
    ensures from <= to <= |s| && Strip(s) == s[from..to] && Trimmed(Strip(s))
    ensures forall i :: 0 <= i < |s| && !(from <= i < to) ==> IsSpace(s[i])
  {
    from := StripLeftIs(s);
    var n := StripRightIs(s[from..]);
    to := from + n;
    assert s[from..][..n] == s[from..to];
    assert forall i :: from <= i < |s| ==> s[from..][i - from] == s[i];
  }

  lemma {:induction false} StripLeftIs(s: string) returns (from: nat)
    ensures from <= |s| && StripLeft(s) == s[from..] && (from < |s| ==> !IsSpace(s[from]))
    ensures forall i :: 0 <= i < from ==> IsSpace(s[i])
  {
    if s != "" && IsSpace(s[0]) {
      var k := StripLeftIs(s[1..]);
      from := k + 1;
      assert s[1..][k..] == s[from..];
      assert forall i :: 1 <= i < from ==> s[i] == s[1..][i - 1];
    } else {
      from := 0;
    }
  }

  lemma {:induction false} StripRightIs(s: string) returns (to: nat)
    ensures to <= |s| && StripRight(s) == s[..to] && (to > 0 ==> !IsSpace(s[to - 1]))
    ensures forall i :: to <= i < |s| ==> IsSpace(s[i])
  {
    if s != "" && IsSpace(s[|s| - 1]) {
      to := StripRightIs(s[..|s| - 1]);
      assert s[..|s| - 1][..to] == s[..to];
      assert forall i :: 0 <= i < |s| - 1 ==> s[i] == s[..|s| - 1][i];
    } else {
      to := |s|;
    }
  }

  /** `s.split(sep)`: the empty text has one empty piece. */
  function Split(s: string, sep: char): (pieces: seq<string>)
    ensures |pieces| >= 1 && forall i :: 0 <= i < |pieces| ==> sep !in pieces[i]
  {
    if s == "" then [""]
    else
      var more := Split(s[1..], sep);
      if s[0] == sep then [""] + more else [[s[0]] + more[0]] + more[1..]
  }

  /** `sep.join(pieces)`. */
  function Join(pieces: seq<string>, sep: char): string
    requires |pieces| >= 1
  {
    if |pieces| == 1 then pieces[0] else pieces[0] + [sep] + Join(pieces[1..], sep)
  }

  lemma {:induction false} SplitFirst(p: string, more: string, sep: char)
    requires sep !in p
    ensures Split(p + [sep] + more, sep) == [p] + Split(more, sep)
  {
    var s := p + [sep] + more;
    if p == "" {
      assert s[1..] == more;
    } else {
      assert s[1..] == p[1..] + [sep] + more;
      SplitFirst(p[1..], more, sep);
      assert [s[0]] + p[1..] == p;
    }
  }

  lemma {:induction false} SplitOne(p: string, sep: char)
    requires sep !in p
    ensures Split(p, sep) == [p]
  {
    if p != "" {
      SplitOne(p[1..], sep);
      assert [p[0]] + p[1..] == p;
    }
  }

  lemma {:induction false} SplitOnce(s: string, sep: char)
    ensures |Split(s, sep)| == 1 <==> sep !in s
  {
    if s != "" {
      SplitOnce(s[1..], sep);
      assert sep in s <==> s[0] == sep || sep in s[1..];
    }
  }

  /** Joining undoes splitting. */
  lemma {:induction false} JoinSplit(s: string, sep: char)
    ensures Join(Split(s, sep), sep) == s
  {
    if s != "" {
      var more := Split(s[1..], sep);
      JoinSplit(s[1..], sep);
      assert s == [s[0]] + s[1..];
      if s[0] == sep {
        assert ([""] + more)[1..] == more;
      } else {
        assert ([[s[0]] + more[0]] + more[1..])[1..] == more[1..];
      }
    }
  }

  lemma {:induction false} SplitJoin(pieces: seq<string>, sep: char)
    requires |pieces| >= 1 && forall i :: 0 <= i < |pieces| ==> sep !in pieces[i]
    ensures Split(Join(pieces, sep), sep) == pieces
  {
    if |pieces| == 1 {
      SplitOne(pieces[0], sep);
    } else {
      SplitFirst(pieces[0], Join(pieces[1..], sep), sep);
      SplitJoin(pieces[1..], sep);
    }
  }

  lemma {:induction false} Shifted(s: string, off: nat, n: nat)
    requires 0 < off && off + n <= |s|
    ensures s[off..off + n] == s[1..][off - 1..off - 1 + n]
  {
    assert s == [s[0]] + s[1..];
  }

  /** Every piece is found in the text. */
  lemma {:induction false} PieceOffset(s: string, sep: char, j: nat) returns (off: nat)
    requires j < |Split(s, sep)|
    ensures off + |Split(s, sep)[j]| <= |s| && s[off..off + |Split(s, sep)[j]|] == Split(s, sep)[j]
    ensures j == 0 ==> off == 0
  {
    if s == "" || (s[0] == sep && j == 0) {
      off := 0;
    } else if s[0] == sep || j > 0 {
      var k := if s[0] == sep then j - 1 else j;
      var o := PieceOffset(s[1..], sep, k);
      off := o + 1;
      Shifted(s, off, |Split(s[1..], sep)[k]|);
    } else {
      off := PieceOffset(s[1..], sep, 0);
      var n := |Split(s[1..], sep)[0]|;
      assert s[..n + 1] == [s[0]] + s[1..][..n];
    }
  }
}
