/** Collection ids in front of keys: unsigned LEB128 (section 7.6 of DWARF 5). */
module Leb128 {
  import opened Bytes

  /** The shortest encoding of a number: seven bits a byte, least significant first, every byte
      but the last with its continue bit set. */
  function Encode(cid: nat): (s: seq<Byte>)
    ensures s != []
  {
    if cid < 128 then [cid] else [128 + cid % 128] + Encode(cid / 128)
  }

  /** 128 to the power `n`. */
  function Span7(n: nat): (r: nat)
    ensures r > 0
  {
    if n == 0 then 1 else 128 * Span7(n - 1)
  }

  /** The number in the low seven bits of the bytes. */
  function Value(s: seq<Byte>): nat {
    if s == [] then 0 else s[0] % 128 + 128 * Value(s[1..])
  }

  predicate Continues(b: Byte) {
    b >= 128
  }

  /** The position of the first byte from `from` on that does not continue, or the length. */
  function Stop(data: seq<Byte>, from: nat): (t: nat)
    requires from <= |data|
    ensures from <= t <= |data|
    ensures forall i :: from <= i < t ==> Continues(data[i])
    ensures t < |data| ==> !Continues(data[t])
    decreases |data| - from
  {
    if from == |data| || !Continues(data[from]) then from else Stop(data, from + 1)
  }

  datatype Decoded = Ok(cid: nat, key: seq<Byte>) | EmptyInput | NoStopByte

  /** What the decoder answers: a number that ends at its stop byte and the rest. An input of one
      byte is taken as it is; of longer ones a number of several bytes must leave something over. */
  function Decode(data: seq<Byte>): Decoded {
    if data == [] then EmptyInput
    else if |data| == 1 then Ok(data[0] % 128, [])
    else
      var t := Stop(data, 0);
      if t > 0 && t + 1 >= |data| then NoStopByte
      else Ok(Value(data[..t + 1]), data[t + 1..])
  }

  /** The `continue` bit set. */
  function WithContinue(b: Byte): Byte {
    if b < 128 then b + 128 else b
  }

  lemma {:induction false} ValueAppend(s: seq<Byte>, b: Byte)
    ensures Value(s + [b]) == Value(s) + (b % 128) * Span7(|s|)
    ensures Value(s) < Span7(|s|)
  {
    if s == [] {
      assert s + [b] == [b];
      assert Value([b]) == b % 128 + 128 * Value([b][1..]);
    } else {
      ValueAppend(s[1..], b);
      assert (s + [b])[1..] == s[1..] + [b];
      assert 128 * ((b % 128) * Span7(|s| - 1)) == (b % 128) * Span7(|s|);
    }
  }

  method EncodeCollectionId(cid: nat, key: seq<Byte>) returns (out: seq<Byte>)
    ensures out == Encode(cid) + key
  {
    var collection: nat := cid;
    var output: seq<Byte> := [0];
    while collection > 0
      invariant output != []
      invariant collection > 0 ==> output[..|output| - 1] + Encode(collection) == Encode(cid)
      invariant collection == 0 ==> output == Encode(cid)
      decreases collection
    {
      ghost var before, was: nat := output, collection;
      var byte: Byte := collection % 256;
      collection := collection / 128;
      if collection > 0 {
        byte := WithContinue(byte);
        output := output[|output| - 1 := byte];
        output := output + [0];
        assert output[..|output| - 1] == before[..|before| - 1] + [byte];
        assert before[..|before| - 1] + ([byte] + Encode(collection)) == before[..|before| - 1] + [byte] + Encode(collection);
        assert byte == 128 + was % 128;
      } else {
        output := output[|output| - 1 := byte];
        assert output == before[..|before| - 1] + [byte];
      }
    }
    out := output + key;
  }

  /** The decoder's loop. `cid | bits << shift` is a sum, as `cid` stays below the shifted bits. */
  method DecodeCollectionId(data: seq<Byte>) returns (r: Decoded)
    ensures r == Decode(data)
  {
    if data == [] {
      return EmptyInput;
    }
    var cid: nat := data[0] % 128;
    var end := 1;
    ValueAppend([], data[0]);
    assert [] + [data[0]] == data[..1];
    if Continues(data[0]) {
      var shifted: nat := 128;
      end := 0;
      var stopped := false;
      for i := 1 to |data|
        invariant end == i - 1 && !stopped
        invariant shifted == Span7(i) && cid == Value(data[..i]) < shifted
        invariant forall j :: 0 <= j < i ==> Continues(data[j])
      {
        ValueAppend(data[..i], data[i]);
        assert data[..i] + [data[i]] == data[..i + 1];
        ValueAppend(data[..i + 1], 0);
        var bits: nat := data[i] % 128;
        cid := cid + bits * shifted;
        end := i;
        if !Continues(data[i]) {
          StopIs(data, i);
          stopped := true;
          break;
        }
        shifted := shifted * 128;
      }
      if !stopped {
        StopIs(data, |data|);
      }
      if |data| == 1 {
        end := 1;
      }
      end := end + 1;
      if end == |data| {
        return NoStopByte;
      }
    }
    r := Ok(cid, if end <= |data| then data[end..] else []);
  }

  lemma {:induction false} StopFrom(data: seq<Byte>, from: nat, t: nat)
    requires from <= t <= |data| && (forall i :: from <= i < t ==> Continues(data[i]))
    requires t < |data| ==> !Continues(data[t])
    ensures Stop(data, from) == t
    decreases t - from
  {
    if from < t {
      StopFrom(data, from + 1, t);
    }
  }

  lemma {:induction false} StopIs(data: seq<Byte>, t: nat)
    requires t <= |data| && (forall i :: 0 <= i < t ==> Continues(data[i]))
    requires t < |data| ==> !Continues(data[t])
    ensures Stop(data, 0) == t
  {
    StopFrom(data, 0, t);
  }

  // ----- the code

  /** Every byte of an encoding but the last continues. */
  lemma {:induction false} EncodeShape(cid: nat)
    ensures var s := Encode(cid);
      !Continues(s[|s| - 1]) && (forall i :: 0 <= i < |s| - 1 ==> Continues(s[i])) && Value(s) == cid
    ensures |Encode(cid)| == 1 <==> cid < 128
  {
    if cid >= 128 {
      EncodeShape(cid / 128);
      var s := Encode(cid);
      assert s[1..] == Encode(cid / 128);
    }
  }

  /** An encoded id in front of a key decodes to both, if and only if the id fits one byte or the
      key is not empty; in the remaining case the input is rejected. */
  lemma {:induction false} RoundTripIff(cid: nat, key: seq<Byte>)
    ensures Decode(Encode(cid) + key) == Ok(cid, key) <==> cid < 128 || key != []
    ensures cid >= 128 && key == [] ==> Decode(Encode(cid) + key) == NoStopByte
  {
    EncodeShape(cid);
    var s := Encode(cid);
    var data := s + key;
    StopIs(data, |s| - 1);
    assert data[..|s|] == s && data[|s|..] == key;
  }

  /** Of all byte strings for a number the encoding is the shortest. */
  lemma {:induction false} EncodeMinimal(s: seq<Byte>)
    requires s != []
    ensures |Encode(Value(s))| <= |s|
  {
    if |s| == 1 {
      assert s[1..] == [];
    } else if Value(s) >= 128 {
      EncodeMinimal(s[1..]);
    }
  }

  /** And it is the only well-formed one of its length. */
  lemma {:induction false} EncodeUnique(s: seq<Byte>)
    requires s != [] && !Continues(s[|s| - 1]) && forall i :: 0 <= i < |s| - 1 ==> Continues(s[i])
    requires |s| > 1 ==> s[|s| - 1] != 0
    ensures s == Encode(Value(s))
  {
    if |s| == 1 {
      assert s[1..] == [];
    } else {
      EncodeUnique(s[1..]);
      ValuePositive(s[1..]);
      assert s == [s[0]] + s[1..];
    }
  }

  lemma {:induction false} ValuePositive(s: seq<Byte>)
    requires s != [] && s[|s| - 1] % 128 != 0
    ensures Value(s) > 0
  {
    if |s| > 1 {
      ValuePositive(s[1..]);
    }
  }

  /** No encoding is the beginning of another one. */
  lemma {:induction false} PrefixFree(a: nat, b: nat)
    requires Encode(a) <= Encode(b)
    ensures a == b
  {
    EncodeShape(a);
    EncodeShape(b);
    var last := |Encode(a)| - 1;
    assert !Continues(Encode(b)[last]);
    assert |Encode(b)| == |Encode(a)|;
    assert Encode(a) == Encode(b);
  }

  /** An input without a stop byte is rejected, except when it is a single byte. */
  lemma {:induction false} NoStopIsRejected(data: seq<Byte>)
    requires data != [] && forall i :: 0 <= i < |data| ==> Continues(data[i])
    ensures Decode(data) == NoStopByte <==> |data| >= 2
  {
    StopIs(data, |data|);
  }

  // ----- bytes written out

  /** An id of up to 14 bits: the low seven bits come first. */
  lemma {:induction false} EncodeIs(cid: nat)
    requires cid < 16384
    ensures Encode(cid) == if cid < 128 then [cid] else [128 + cid % 128, cid / 128]
  {
    if cid >= 128 {
      assert Encode(cid / 128) == [cid / 128];
    }
  }

  /** What two bytes in front of a key are decoded to, and what one byte alone is. */
  lemma {:induction false} DecodeIs(a: Byte, b: Byte, key: seq<Byte>)
    ensures Decode([a]) == Ok(if a < 128 then a else a - 128, [])
    ensures a < 128 ==> Decode([a, b] + key) == Ok(a, [b] + key)
    ensures a >= 128 && b < 128 && key != [] ==> Decode([a, b] + key) == Ok(a - 128 + 128 * b as nat, key)
    ensures a >= 128 && b < 128 && key == [] ==> Decode([a, b] + key) == NoStopByte
  {
    var data := [a, b] + key;
    assert [b][1..] == [] && Value([b]) == b as nat % 128;
    assert [a, b][1..] == [b] && Value([a, b]) == a as nat % 128 + 128 * Value([b]);
    assert [a][1..] == [] && Value([a]) == a as nat % 128;
    if a < 128 {
      StopIs(data, 0);
      assert data[..0 + 1] == [a] && data[0 + 1..] == [b] + key;
    } else if b < 128 {
      StopIs(data, 1);
      assert data[..1 + 1] == [a, b] && data[1 + 1..] == key;
    }
  }
}
