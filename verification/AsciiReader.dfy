/** Reading the replies of the ASCII protocol: value lines followed by blocks of data, up to a
    final line. */
module AsciiReader {
  import opened Decimal
  import opened Sockets
  import opened Text

  const CRLF: string := "\r\n"

  predicate EndAt(s: string, i: nat) {
    i + 1 < |s| && s[i] == '\r' && s[i + 1] == '\n'
  }

  /** Where the first line ends, or the length if it does not. */
  function LineEnd(s: string, from: nat): (n: nat)
    requires from <= |s|
    ensures from <= n <= |s|
    ensures forall i :: from <= i < n ==> !EndAt(s, i)
    ensures n < |s| ==> EndAt(s, n)
    decreases |s| - from
  {
    if from == |s| || EndAt(s, from) then from else LineEnd(s, from + 1)
  }

  datatype Entry = Entry(flags: nat, cas: nat, data: string)

  /** What reading a reply does. A value line with too few fields, or a field that is no number,
      raises. */
  datatype Outcome =
    | Got(result: map<string, Entry>, error: string, rest: string)
    | EndOfStream
    | Malformed(rest: string)

  /** Reading from the bytes still to come, with the values read so far. */
  function Read(s: string, result: map<string, Entry>): Outcome
    decreases |s|
  {
    var n := LineEnd(s, 0);
    if n == |s| then EndOfStream else Handle(s[..n], s[n + 2..], result)
  }

  /** After a line has been read. */
  function Handle(msg: string, rest: string, result: map<string, Entry>): Outcome
    decreases |rest| + 1
  {
    var fields := Split(msg, ' ');
    if fields[0] != "VALUE" then Got(result, if msg == "END" then "" else msg, rest)
    else if |fields| < 5 then Malformed(rest)
    else
      var flags, length, cas := Parse(fields[2]), Parse(fields[3]), Parse(fields[4]);
      if flags.None? || length.None? || cas.None? then Malformed(rest)
      else if |rest| < length.value + 2 then EndOfStream
      else
        Read(rest[length.value + 2..],
             result[fields[1] := Entry(flags.value % 0x1_0000_0000, cas.value, rest[..length.value])])
  }

  lemma {:induction false} LineEndFrom(s: string, from: nat, n: nat)
    requires from <= n <= |s| && forall i :: from <= i < n ==> !EndAt(s, i)
    requires n < |s| ==> EndAt(s, n)
    ensures LineEnd(s, from) == n
    decreases n - from
  {
    if from < n {
      LineEndFrom(s, from + 1, n);
    }
  }

  /** Reads up to and including a line end, a byte at a time. */
  method RecvMsg(s: Socket<char>) returns (ok: bool, msg: string)
    modifies s
    ensures ok == (LineEnd(old(s.incoming), 0) < |old(s.incoming)|)
    ensures var n := LineEnd(old(s.incoming), 0);
      if ok then msg == old(s.incoming)[..n] && s.incoming == old(s.incoming)[n + 2..] else s.incoming == ""
  {
    ghost var stream := s.incoming;
    var response := "";
    while !(|response| >= 2 && EndAt(response, |response| - 2))
      invariant response + s.incoming == stream
      invariant forall i :: 0 <= i < |response| - 2 ==> !EndAt(response, i)
      decreases |s.incoming|
    {
      var data := s.Recv(1);
      if data == "" {
        assert response == stream;
        LineEndFrom(stream, 0, |stream|);
        return false, "";
      }
      assert response + data + s.incoming == stream;
      ghost var before := response;
      response := response + data;
      assert forall i :: 0 <= i < |before| - 1 ==> EndAt(response, i) == EndAt(before, i);
    }
    ok, msg := true, response[..|response| - 2];
    assert forall i :: 0 <= i < |response| - 1 ==> EndAt(stream, i) == EndAt(response, i);
    LineEndFrom(stream, 0, |msg|);
  }

  /** Reads a block of data and the line end after it, which is dropped unseen. */
  method RecvData(s: Socket<char>, length: nat) returns (ok: bool, data: string)
    modifies s
    ensures ok == (|old(s.incoming)| >= length + 2)
    ensures ok ==> data == old(s.incoming)[..length] && s.incoming == old(s.incoming)[length + 2..]
    ensures !ok ==> s.incoming == ""
  {
    ok, data := s.RecvExactly(length + 2);
    if ok {
      assert data == old(s.incoming)[..length + 2];
      data := data[..length];
    }
  }

  /** However the bytes arrive, the values read are those at the head of the stream, and exactly
      the bytes of the reply are consumed. */
  method DoRetrieve(s: Socket<char>) returns (r: Outcome)
    modifies s
    ensures r == Read(old(s.incoming), map[])
    ensures s.incoming == if r.EndOfStream? then "" else r.rest
  {
    var result: map<string, Entry> := map[];
    var ok, msg := RecvMsg(s);
    if !ok {
      return EndOfStream;
    }
    while Split(msg, ' ')[0] == "VALUE"
      invariant Handle(msg, s.incoming, result) == Read(old(s.incoming), map[])
      decreases |s.incoming|
    {
      var fields := Split(msg, ' ');
      if |fields| < 5 {
        return Malformed(s.incoming);
      }
      var flags, length, cas := Parse(fields[2]), Parse(fields[3]), Parse(fields[4]);
      if flags.None? || length.None? || cas.None? {
        return Malformed(s.incoming);
      }
      var data;
      ok, data := RecvData(s, length.value);
      if !ok {
        return EndOfStream;
      }
      result := result[fields[1] := Entry(flags.value % 0x1_0000_0000, cas.value, data)];
      ok, msg := RecvMsg(s);
      if !ok {
        return EndOfStream;
      }
    }
    r := Got(result, if msg == "END" then "" else msg, s.incoming);
  }

  // ----- the printer

  datatype Item = Item(key: string, entry: Entry)

  function ValueFields(item: Item): seq<string> {
    ["VALUE", item.key, ToText(item.entry.flags), ToText(|item.entry.data|), ToText(item.entry.cas)]
  }

  function ValueLine(item: Item): string {
    Join(ValueFields(item), ' ')
  }

  /** The reply of a server that has these values. */
  function Print(items: seq<Item>): string {
    if items == [] then "END" + CRLF
    else ValueLine(items[0]) + CRLF + items[0].entry.data + CRLF + Print(items[1..])
  }

  /** The values by key; a later one replaces an earlier one. */
  function Collected(items: seq<Item>, result: map<string, Entry>): map<string, Entry> {
    if items == [] then result
    else Collected(items[1..], result[items[0].key := items[0].entry])
  }

  /** A key that can stand in a value line. */
  predicate Clean(key: string) {
    ' ' !in key && forall i :: 0 <= i < |key| ==> !EndAt(key, i)
  }

  // ----- reading what is printed

  lemma {:induction false} DigitsOnly(n: nat)
    ensures forall i :: 0 <= i < |ToText(n)| ==> IsDigit(ToText(n)[i])
  {
    forall i | 0 <= i < |ToText(n)| ensures IsDigit(ToText(n)[i]) {
      assert ToText(n)[i] in ToText(n);
    }
  }

  /** The part of a value line after the key. */
  function Numbers(item: Item): string {
    ToText(item.entry.flags) + " " + ToText(|item.entry.data|) + " " + ToText(item.entry.cas)
  }

  lemma {:induction false} LineShape(item: Item)
    ensures ValueLine(item) == "VALUE " + item.key + " " + Numbers(item)
    ensures '\r' !in Numbers(item) && '\n' !in Numbers(item)
  {
    var f := ValueFields(item);
    assert f[1..] == [f[1], f[2], f[3], f[4]];
    assert f[1..][1..] == [f[2], f[3], f[4]];
    assert f[1..][1..][1..] == [f[3], f[4]];
    assert f[1..][1..][1..][1..] == [f[4]];
    assert Join([f[4]], ' ') == f[4];
    assert Join([f[3], f[4]], ' ') == f[3] + " " + f[4];
    assert Join([f[2], f[3], f[4]], ' ') == Numbers(item);
    assert Join(f[1..], ' ') == item.key + " " + Numbers(item);
    DigitsOnly(item.entry.flags);
    DigitsOnly(|item.entry.data|);
    DigitsOnly(item.entry.cas);
  }

  /** The first line of a reply is the first value line. */
  lemma {:induction false} LineRead(item: Item, rest: string)
    requires Clean(item.key)
    ensures LineEnd(ValueLine(item) + CRLF + rest, 0) == |ValueLine(item)|
  {
    LineShape(item);
    var line := ValueLine(item);
    var s := line + CRLF + rest;
    forall i | 0 <= i < |line| ensures !EndAt(s, i) {
      if 6 <= i < 6 + |item.key| {
        assert s[i] == item.key[i - 6];
        assert !EndAt(item.key, i - 6);
      } else if i < 6 {
        assert s[i] == "VALUE "[i];
      } else if i > 6 + |item.key| {
        assert s[i] == Numbers(item)[i - 7 - |item.key|];
      }
    }
    LineEndFrom(s, 0, |line|);
  }

  lemma {:induction false} LineSplit(item: Item)
    requires Clean(item.key)
    ensures Split(ValueLine(item), ' ') == ValueFields(item)
  {
    DigitsOnly(item.entry.flags);
    DigitsOnly(|item.entry.data|);
    DigitsOnly(item.entry.cas);
    SplitJoin(ValueFields(item), ' ');
  }

  lemma {:induction false} DataAhead(data: string, more: string, rest: string)
    requires more == data + CRLF + rest
    ensures |more| >= |data| + 2 && more[..|data|] == data && more[|data| + 2..] == rest
  {
  }

  lemma {:induction false} HandleItem(msg: string, item: Item, more: string, rest: string, result: map<string, Entry>)
    requires Split(msg, ' ') == ValueFields(item) && item.entry.flags < 0x1_0000_0000
    requires more == item.entry.data + CRLF + rest
    ensures Handle(msg, more, result) == Read(rest, result[item.key := item.entry])
  {
    ParseText(item.entry.flags);
    ParseText(|item.entry.data|);
    ParseText(item.entry.cas);
    DataAhead(item.entry.data, more, rest);
  }

  lemma {:induction false} ReadItem(item: Item, rest: string, result: map<string, Entry>)
    requires Clean(item.key) && item.entry.flags < 0x1_0000_0000
    ensures Read(ValueLine(item) + CRLF + (item.entry.data + CRLF + rest), result) ==
            Read(rest, result[item.key := item.entry])
  {
    var line, more := ValueLine(item), item.entry.data + CRLF + rest;
    var s := line + CRLF + more;
    LineRead(item, more);
    LineSplit(item);
    assert s[..|line|] == line && s[|line| + 2..] == more;
    HandleItem(line, item, more, rest, result);
  }

  lemma {:induction false} ReadEnd(result: map<string, Entry>, tail: string)
    ensures Read("END" + CRLF + tail, result) == Got(result, "", tail)
  {
    var s := "END" + CRLF + tail;
    LineEndFrom(s, 0, 3);
    assert s[..3] == "END" && s[5..] == tail;
    SplitOne("END", ' ');
  }

  lemma {:induction false} PrintFirst(items: seq<Item>, tail: string)
    requires items != []
    ensures Print(items) + tail ==
            ValueLine(items[0]) + CRLF + (items[0].entry.data + CRLF + (Print(items[1..]) + tail))
  {
  }

  lemma {:induction false} ReadPrinted(items: seq<Item>, result: map<string, Entry>, tail: string)
    requires forall i :: 0 <= i < |items| ==> Clean(items[i].key) && items[i].entry.flags < 0x1_0000_0000
    ensures Read(Print(items) + tail, result) == Got(Collected(items, result), "", tail)
  {
    if items == [] {
      ReadEnd(result, tail);
    } else {
      PrintFirst(items, tail);
      ReadItem(items[0], Print(items[1..]) + tail, result);
      ReadPrinted(items[1..], result[items[0].key := items[0].entry], tail);
    }
  }

  /** Whatever is read, its keys are clean. */
  lemma {:induction false} KeysReadAreClean(s: string, result: map<string, Entry>)
    requires forall k :: k in result ==> Clean(k)
    ensures var r := Read(s, result); r.Got? ==> forall k :: k in r.result ==> Clean(k)
    decreases |s|
  {
    var n := LineEnd(s, 0);
    if n < |s| {
      var msg, rest := s[..n], s[n + 2..];
      var fields := Split(msg, ' ');
      if |fields| >= 5 {
        FieldIsClean(s, n, 1);
        var flags, length, cas := Parse(fields[2]), Parse(fields[3]), Parse(fields[4]);
        if flags.Some? && length.Some? && cas.Some? && |rest| >= length.value + 2 {
          KeysReadAreClean(rest[length.value + 2..],
            result[fields[1] := Entry(flags.value % 0x1_0000_0000, cas.value, rest[..length.value])]);
        }
      }
    }
  }

  lemma {:induction false} FieldIsClean(s: string, n: nat, j: nat)
    requires n == LineEnd(s, 0) && j < |Split(s[..n], ' ')|
    ensures Clean(Split(s[..n], ' ')[j])
  {
    var field := Split(s[..n], ' ')[j];
    var off := PieceOffset(s[..n], ' ', j);
    forall i | 0 <= i < |field| ensures !EndAt(field, i) {
      assert field[i] == s[off + i];
      assert i + 1 < |field| ==> field[i + 1] == s[off + i + 1];
      assert !EndAt(s, off + i);
    }
  }

  lemma {:induction false} CollectedKeys(items: seq<Item>, result: map<string, Entry>)
    ensures forall k :: k in result ==> k in Collected(items, result)
    ensures forall i :: 0 <= i < |items| ==> items[i].key in Collected(items, result)
  {
    if items != [] {
      CollectedKeys(items[1..], result[items[0].key := items[0].entry]);
      forall i | 0 <= i < |items| ensures items[i].key in Collected(items, result) {
        assert i > 0 ==> items[i] == items[1..][i - 1];
      }
    }
  }

  /** A printed reply is read back, and nothing after it is touched, if and only if every key is
      free of spaces and line ends; the data may be anything. */
  lemma {:induction false} RoundTripIff(items: seq<Item>, tail: string)
    requires forall i :: 0 <= i < |items| ==> items[i].entry.flags < 0x1_0000_0000
    ensures Read(Print(items) + tail, map[]) == Got(Collected(items, map[]), "", tail) <==>
            (forall i :: 0 <= i < |items| ==> Clean(items[i].key))
  {
    if forall i :: 0 <= i < |items| ==> Clean(items[i].key) {
      ReadPrinted(items, map[], tail);
    } else {
      KeysReadAreClean(Print(items) + tail, map[]);
      CollectedKeys(items, map[]);
    }
  }

  // ----- one line of a reply

  /** A line that can stand at the head of a stream. */
  predicate OneLine(line: string) {
    forall i :: 0 <= i < |line| ==> line[i] != '\r'
  }

  lemma {:induction false} LineAhead(line: string, rest: string)
    requires OneLine(line)
    ensures var s := line + "\r\n" + rest;
      LineEnd(s, 0) == |line| < |s| && s[..|line|] == line && s[|line| + 2..] == rest
  {
    var s := line + "\r\n" + rest;
    forall i | 0 <= i < |line| ensures !EndAt(s, i) {
      assert s[i] == line[i];
    }
    LineEndFrom(s, 0, |line|);
  }

  /** A line whose first word is not VALUE ends the reply: END means that nothing went wrong, and any
      other line is the error. */
  lemma {:induction false} LastLine(line: string, rest: string, result: map<string, Entry>)
    requires OneLine(line) && Split(line, ' ')[0] != "VALUE"
    ensures Read(line + "\r\n" + rest, result) == Got(result, if line == "END" then "" else line, rest)
  {
    LineAhead(line, rest);
  }

  /** What a value line asks for: four more words, of which the last three are numbers, and as many
      characters of data as the fourth says, with a line end behind them; flags are cut to 32 bits. */
  lemma {:induction false} ValueLineRead(words: seq<string>, rest: string, result: map<string, Entry>)
    requires |words| >= 1 && words[0] == "VALUE" && OneLine(Join(words, ' '))
    requires forall i :: 0 <= i < |words| ==> ' ' !in words[i]
    ensures var r := Read(Join(words, ' ') + "\r\n" + rest, result);
      if |words| < 5 || Parse(words[2]).None? || Parse(words[3]).None? || Parse(words[4]).None? then r == Malformed(rest)
      else
        var n := Parse(words[3]).value;
        if |rest| < n + 2 then r == EndOfStream
        else r == Read(rest[n + 2..], result[words[1] :=
          Entry(Parse(words[2]).value % 0x1_0000_0000, Parse(words[4]).value, rest[..n])])
  {
    LineAhead(Join(words, ' '), rest);
    SplitJoin(words, ' ');
  }

  /** A stream without a line end is waited on to its end. */
  lemma {:induction false} NoLine(s: string, result: map<string, Entry>)
    requires OneLine(s)
    ensures Read(s, result) == EndOfStream
  {
    LineEndFrom(s, 0, |s|);
  }
}
