/** Pipelined multi-operations: all requests are sent first, each vbucket is closed by a NOOP,
    and responses are read until the last NOOP has been answered. */
module Pipeline {
  import opened Arithmetic
  import opened Bytes
  import Crc32

  datatype Request =
    | SetItem(opaqueId: nat, vbucket: nat, key: string, val: string)
    | GetItem(opaqueId: nat, vbucket: nat, key: string)
    | Noop(opaqueId: nat, vbucket: nat)

  datatype Answer = Answer(errcode: nat, cas: nat, body: seq<Byte>)

  datatype Response = Response(opaqueId: nat, answer: Answer)

  /** What the server answers to the last of the requests it has been sent so far. */
  type Server = seq<Request> -> Answer

  /** A connection to a server that answers every request, in order, with its tag. */
  class Connection {
    const server: Server
    var sent: seq<Request>
    var inbox: seq<Response>

    constructor (server: Server)
      ensures this.server == server && sent == [] && inbox == []
    {
      this.server := server;
      this.sent, this.inbox := [], [];
    }

    method Send(r: Request)
      modifies this
      ensures sent == old(sent) + [r]
      ensures inbox == old(inbox) + [Response(r.opaqueId, server(sent))]
    {
      sent := sent + [r];
      inbox := inbox + [Response(r.opaqueId, server(sent))];
    }

    /** Reads one response; without one the client would wait for ever. */
    method Receive() returns (r: Response)
      requires inbox != []
      modifies this`inbox
      ensures r == old(inbox)[0] && inbox == old(inbox)[1..]
    {
      r, inbox := inbox[0], inbox[1..];
    }
  }

  /** The response to request `i` of some, sent after `before`: it has the tag of the request. */
  ghost function AnswerTo(server: Server, before: seq<Request>, requests: seq<Request>, i: nat): Response
    requires i < |requests|
  {
    Response(requests[i].opaqueId, server(before + requests[..i + 1]))
  }

  ghost function Answers(server: Server, before: seq<Request>, requests: seq<Request>): (rs: seq<Response>)
    ensures |rs| == |requests|
    ensures forall i :: 0 <= i < |rs| ==> rs[i] == AnswerTo(server, before, requests, i)
  {
    seq(|requests|, i requires 0 <= i < |requests| => AnswerTo(server, before, requests, i))
  }

  /** Requests sent later change no answer. */
  lemma {:induction false} AnswersInFront(server: Server, before: seq<Request>, items: seq<Request>, more: seq<Request>)
    ensures Answers(server, before, items + more)[..|items|] == Answers(server, before, items)
  {
    var all := items + more;
    forall i | 0 <= i < |items|
      ensures AnswerTo(server, before, all, i) == AnswerTo(server, before, items, i)
    {
      assert all[..i + 1] == items[..i + 1];
    }
  }

  lemma {:induction false} AnswersBehind(server: Server, before: seq<Request>, items: seq<Request>, more: seq<Request>)
    ensures Answers(server, before, items + more)[|items|..] == Answers(server, before + items, more)
  {
    var all := items + more;
    forall i | 0 <= i < |more|
      ensures AnswerTo(server, before, all, |items| + i) == AnswerTo(server, before + items, more, i)
    {
      assert all[..|items| + i + 1] == items + more[..i + 1];
      assert before + (items + more[..i + 1]) == before + items + more[..i + 1];
    }
  }

  lemma {:induction false} OneMoreAnswer(server: Server, before: seq<Request>, requests: seq<Request>, r: Request)
    ensures before + (requests + [r]) == before + requests + [r]
    ensures Answers(server, before, requests + [r]) ==
            Answers(server, before, requests) + [Response(r.opaqueId, server(before + requests + [r]))]
  {
    var more := requests + [r];
    AnswersInFront(server, before, requests, [r]);
    assert more[..|more|] == more;
    assert before + more == before + requests + [r];
  }

  /** The tags of a response stream: the items by position, then every NOOP with the terminal tag. */
  ghost predicate Replies(rs: seq<Response>, n: nat, vbs: nat) {
    && |rs| == n + vbs
    && (forall i :: 0 <= i < n ==> rs[i].opaqueId == i)
    && (forall i :: n <= i < |rs| ==> rs[i].opaqueId == n + 10)
  }

  /** The failed responses, in order. */
  function Failures(rs: seq<Response>): (failed: seq<Answer>)
    ensures |failed| <= |rs|
  {
    if rs == [] then []
    else
      var last := rs[|rs| - 1].answer;
      Failures(rs[..|rs| - 1]) + (if last.errcode != 0 then [last] else [])
  }

  lemma {:induction false} FailuresNext(rs: seq<Response>, p: nat)
    requires p < |rs|
    ensures var answer := rs[p].answer;
      Failures(rs[..p + 1]) == Failures(rs[..p]) + (if answer.errcode != 0 then [answer] else [])
  {
    assert rs[..p + 1][..p] == rs[..p];
  }

  /** A response that ends the wait for one vbucket. */
  predicate Closing(r: Response, terminal: nat) {
    r.answer.errcode == 0 && r.opaqueId == terminal
  }

  function Closings(rs: seq<Response>, terminal: nat, p: nat): (count: nat)
    requires p <= |rs|
  {
    if p == 0 then 0 else Closings(rs, terminal, p - 1) + (if Closing(rs[p - 1], terminal) then 1 else 0)
  }

  lemma {:induction false} NoneClosing(rs: seq<Response>, terminal: nat, p: nat, q: nat)
    requires p <= q <= |rs| && forall i :: p <= i < q ==> !Closing(rs[i], terminal)
    ensures Closings(rs, terminal, q) == Closings(rs, terminal, p)
    decreases q
  {
    if p < q { NoneClosing(rs, terminal, p, q - 1); }
  }

  /** `p` is behind the first closing response from `from` on, if there is one. */
  ghost predicate ReadOn(rs: seq<Response>, terminal: nat, from: nat, p: nat, done: bool) {
    && from <= p <= |rs|
    && (done ==> p > from && Closing(rs[p - 1], terminal))
    && (forall i :: from <= i < (if done then p - 1 else p) ==> !Closing(rs[i], terminal))
  }

  lemma {:induction false} OneMoreClosing(rs: seq<Response>, terminal: nat, from: nat, p: nat, done: bool)
    requires ReadOn(rs, terminal, from, p, done)
    ensures Closings(rs, terminal, p) == Closings(rs, terminal, from) + (if done then 1 else 0)
  {
    NoneClosing(rs, terminal, from, if done then p - 1 else p);
  }

  ghost predicate Succeed(rs: seq<Response>) {
    forall i :: 0 <= i < |rs| ==> rs[i].answer.errcode == 0
  }

  /** Only NOOPs close a vbucket, and each of them does if and only if it succeeds. */
  lemma {:induction false} ClosingsOfReplies(rs: seq<Response>, n: nat, vbs: nat, p: nat)
    requires Replies(rs, n, vbs) && p <= |rs|
    ensures p <= n ==> Closings(rs, n + 10, p) == 0
    ensures p >= n ==> Closings(rs, n + 10, p) <= p - n
    ensures p >= n ==> (Closings(rs, n + 10, p) == p - n <==> Succeed(rs[n..p]))
  {
    if p > 0 {
      ClosingsOfReplies(rs, n, vbs, p - 1);
      if p > n {
        assert rs[n..p] == rs[n..p - 1] + [rs[p - 1]];
        SucceedNext(rs[n..p - 1], rs[p - 1]);
      }
    }
  }

  /** With as many closing responses as NOOPs, all NOOPs have been answered, and succeeded. */
  lemma {:induction false} AllClosed(rs: seq<Response>, n: nat, vbs: nat, p: nat)
    requires Replies(rs, n, vbs) && p <= |rs| && (vbs > 0 || n == 0)
    ensures Closings(rs, n + 10, p) <= vbs
    ensures Closings(rs, n + 10, p) == vbs ==> p == |rs|
    ensures p == |rs| ==> (Closings(rs, n + 10, p) == vbs <==> Succeed(rs[n..]))
  {
    ClosingsOfReplies(rs, n, vbs, p);
    if p == |rs| {
      assert rs[n..p] == rs[n..];
    }
  }

  lemma {:induction false} SucceedNext(rs: seq<Response>, r: Response)
    ensures Succeed(rs + [r]) <==> Succeed(rs) && r.answer.errcode == 0
  {
    if Succeed(rs + [r]) {
      assert (rs + [r])[|rs|] == r;
      forall i | 0 <= i < |rs| ensures rs[i].answer.errcode == 0 { assert (rs + [r])[i] == rs[i]; }
    }
  }

  /** Responses that succeed add no failures. */
  lemma {:induction false} NoMoreFailures(rs: seq<Response>, more: seq<Response>)
    requires Succeed(more)
    ensures Failures(rs + more) == Failures(rs)
    decreases |more|
  {
    if more == [] {
      assert rs + more == rs;
    } else {
      var all, n := rs + more, |more| - 1;
      NoMoreFailures(rs, more[..n]);
      assert all[..|all| - 1] == rs + more[..n];
      assert all[|all| - 1] == more[n];
    }
  }

  /** The vbuckets of some requests. */
  function VbucketsOf(items: seq<Request>): set<nat> {
    set i | 0 <= i < |items| :: items[i].vbucket
  }

  lemma {:induction false} OneMoreVbucket(items: seq<Request>, r: Request)
    ensures VbucketsOf(items + [r]) == VbucketsOf(items) + {r.vbucket}
  {
    var more := items + [r];
    forall v | v in VbucketsOf(more) ensures v in VbucketsOf(items) + {r.vbucket} {
      var j :| 0 <= j < |more| && v == more[j].vbucket;
      if j < |items| { assert v == items[j].vbucket; }
    }
    forall v | v in VbucketsOf(items) + {r.vbucket} ensures v in VbucketsOf(more) {
      if v in VbucketsOf(items) {
        var j :| 0 <= j < |items| && v == items[j].vbucket;
        assert v == more[j].vbucket;
      } else {
        assert v == more[|items|].vbucket;
      }
    }
  }

  /** Every vbucket gets exactly one NOOP, and nothing else is sent. */
  ghost predicate Closes(noops: seq<Request>, terminal: nat, vbs: set<nat>) {
    && |noops| == |vbs| && VbucketsOf(noops) == vbs
    && forall i :: 0 <= i < |noops| ==> noops[i] == Noop(terminal, noops[i].vbucket)
  }

  lemma {:induction false} OneMoreNoop(noops: seq<Request>, terminal: nat, vbs: set<nat>, todo: set<nat>, vb: nat)
    requires Closes(noops, terminal, vbs - todo) && vb in todo && todo <= vbs
    ensures Closes(noops + [Noop(terminal, vb)], terminal, vbs - (todo - {vb}))
  {
    OneMoreVbucket(noops, Noop(terminal, vb));
    assert vbs - (todo - {vb}) == vbs - todo + {vb};
  }

  lemma {:induction false} OneNoopEach(noops: seq<Request>, terminal: nat, vbs: set<nat>, i: nat, j: nat)
    requires Closes(noops, terminal, vbs) && i < j < |noops|
    ensures noops[i].vbucket != noops[j].vbucket
  {
    if noops[i].vbucket == noops[j].vbucket {
      var rest := noops[..j] + noops[j + 1..];
      forall v | v in vbs ensures v in VbucketsOf(rest) {
        var k :| 0 <= k < |noops| && v == noops[k].vbucket;
        assert v == if k < j then rest[k].vbucket else if k == j then rest[i].vbucket else rest[k - 1].vbucket;
      }
      SubsetSize(vbs, VbucketsOf(rest));
      FewVbuckets(rest);
    }
  }

  lemma {:induction false} FewVbuckets(items: seq<Request>)
    ensures |VbucketsOf(items)| <= |items|
  {
    if items != [] {
      var n := |items| - 1;
      FewVbuckets(items[..n]);
      assert items == items[..n] + [items[n]];
      OneMoreVbucket(items[..n], items[n]);
    }
  }

  /** With the items ahead of them, the NOOPs are answered under the terminal tag. */
  lemma {:induction false} TagsOfAnswers(server: Server, before: seq<Request>, items: seq<Request>, noops: seq<Request>, vbs: set<nat>)
    requires forall i :: 0 <= i < |items| ==> items[i].opaqueId == i
    requires Closes(noops, |items| + 10, vbs)
    ensures Replies(Answers(server, before, items + noops), |items|, |vbs|)
  {
    var all := items + noops;
    forall i | |items| <= i < |all| ensures all[i].opaqueId == |items| + 10 {
      assert all[i] == noops[i - |items|];
    }
  }

  class Client {
    const connection: Connection
    const vbucketCount: nat

    constructor (connection: Connection, vbucketCount: nat)
      ensures this.connection == connection && this.vbucketCount == vbucketCount
    {
      this.connection := connection;
      this.vbucketCount := vbucketCount;
    }

    /** Sends the items, and notes their vbuckets. */
    method SendItems(items: seq<Request>) returns (vbs: set<nat>)
      requires connection.inbox == []
      modifies connection
      ensures vbs == VbucketsOf(items)
      ensures connection.sent == old(connection.sent) + items
      ensures connection.inbox == Answers(connection.server, old(connection.sent), items)
    {
      vbs := {};
      for i := 0 to |items|
        invariant connection.sent == old(connection.sent) + items[..i]
        invariant connection.inbox == Answers(connection.server, old(connection.sent), items[..i])
        invariant vbs == VbucketsOf(items[..i])
      {
        assert items[..i + 1] == items[..i] + [items[i]];
        OneMoreAnswer(connection.server, old(connection.sent), items[..i], items[i]);
        OneMoreVbucket(items[..i], items[i]);
        connection.Send(items[i]);
        vbs := vbs + {items[i].vbucket};
      }
      assert items[..|items|] == items;
    }

    /** Closes every vbucket with a NOOP, in some order. */
    method SendNoops(terminal: nat, vbs: set<nat>, ghost before: seq<Request>, ghost items: seq<Request>)
      returns (ghost noops: seq<Request>)
      requires connection.sent == before + items
      requires connection.inbox == Answers(connection.server, before, items)
      modifies connection
      ensures Closes(noops, terminal, vbs)
      ensures connection.sent == before + (items + noops)
      ensures connection.inbox == Answers(connection.server, before, items + noops)
    {
      var todo := vbs;
      noops := [];
      assert items + noops == items;
      while todo != {}
        invariant todo <= vbs && Closes(noops, terminal, vbs - todo)
        invariant connection.sent == before + (items + noops)
        invariant connection.inbox == Answers(connection.server, before, items + noops)
      {
        var vb :| vb in todo;
        OneMoreAnswer(connection.server, before, items + noops, Noop(terminal, vb));
        assert items + (noops + [Noop(terminal, vb)]) == items + noops + [Noop(terminal, vb)];
        OneMoreNoop(noops, terminal, vbs, todo, vb);
        connection.Send(Noop(terminal, vb));
        noops, todo := noops + [Noop(terminal, vb)], todo - {vb};
      }
      assert vbs - todo == vbs;
    }

    /** Reads up to the next NOOP that succeeded, collecting failures. Where no response is left
        the client waits for ever. */
    method ReadToNoop(terminal: nat, before: seq<Answer>, ghost all: seq<Response>, ghost from: nat)
      returns (done: bool, failed: seq<Answer>, ghost p: nat)
      requires from <= |all| && connection.inbox == all[from..] && before == Failures(all[..from])
      modifies connection`inbox
      ensures ReadOn(all, terminal, from, p, done)
      ensures connection.inbox == all[p..] && failed == Failures(all[..p])
      ensures !done ==> p == |all|
    {
      done, failed, p := false, before, from;
      while !done
        invariant ReadOn(all, terminal, from, p, done)
        invariant connection.inbox == all[p..] && failed == Failures(all[..p])
        decreases !done, |all| - p
      {
        if connection.inbox == [] {
          return;
        }
        var r := connection.Receive();
        FailuresNext(all, p);
        if r.answer.errcode != 0 {
          failed := failed + [r.answer];
        } else {
          done := r.opaqueId == terminal;
        }
        p := p + 1;
      }
    }

    /** Reads until a NOOP has succeeded for every vbucket: it ends if and only if all succeed. */
    method ReadSets(terminal: nat, vbs: nat) returns (ended: bool, failed: seq<Answer>)
      requires terminal >= 10 && Replies(connection.inbox, terminal - 10, vbs)
      requires vbs > 0 || terminal == 10
      modifies connection`inbox
      ensures connection.inbox == []
      ensures ended <==> Succeed(old(connection.inbox)[terminal - 10..])
      ensures failed == Failures(old(connection.inbox))
    {
      ghost var all, n, p: nat := connection.inbox, terminal - 10, 0;
      failed := [];
      AllClosed(all, n, vbs, |all|);
      assert all[..|all|] == all;
      for v := 0 to vbs
        invariant p <= |all| && connection.inbox == all[p..] && failed == Failures(all[..p])
        invariant Closings(all, terminal, p) == v
      {
        ghost var from := p;
        var done;
        done, failed, p := ReadToNoop(terminal, failed, all, p);
        OneMoreClosing(all, terminal, from, p, done);
        if !done {
          return false, failed;
        }
      }
      AllClosed(all, n, vbs, p);
      ended := true;
    }

    /** Multi-set: the items are sent in order, then one NOOP for each of their vbuckets. It ends
        if and only if every NOOP succeeds; then no response is left, and exactly the failed ones
        are reported, in order. */
    method SetMulti(items: seq<(string, string)>, vbucket: int)
      returns (ended: bool, failed: seq<Answer>, ghost noops: seq<Request>)
      requires vbucketCount > 0 && connection.inbox == []
      modifies connection
      ensures connection.inbox == []
      ensures var requests := SetRequests(items, vbucket, vbucketCount);
        && Closes(noops, |items| + 10, VbucketsOf(requests))
        && connection.sent == old(connection.sent) + (requests + noops)
        && (ended <==> Succeed(Answers(connection.server, old(connection.sent) + requests, noops)))
        && (ended ==> failed == Failures(Answers(connection.server, old(connection.sent), requests)))
    {
      var requests := SetRequests(items, vbucket, vbucketCount);
      var terminal := |items| + 10;
      ghost var before := connection.sent;
      var vbs := SendItems(requests);
      noops := SendNoops(terminal, vbs, before, requests);
      TagsOfAnswers(connection.server, before, requests, noops, vbs);
      SomeVbucket(requests);
      ghost var all := connection.inbox;
      ended, failed := ReadSets(terminal, |vbs|);
      FailuresSplit(connection.server, before, requests, noops);
    }

    /** Reads one response: one that is not good raises, one of an item adds its value. */
    method ReadValue(keys: seq<string>, before: map<string, Fetched>)
      returns (raised: bool, done: bool, values: map<string, Fetched>)
      requires connection.inbox != []
      requires connection.inbox[0].opaqueId < |keys| || connection.inbox[0].opaqueId == |keys| + 10
      modifies connection`inbox
      ensures connection.inbox == old(connection.inbox)[1..]
      ensures var r := old(connection.inbox)[0];
        && (raised <==> !Good(r, |keys| + 10))
        && (done <==> Good(r, |keys| + 10) && r.opaqueId == |keys| + 10)
        && values == if raised || done then before else before[keys[r.opaqueId] := Parse(r.answer)]
    {
      raised, done, values := false, false, before;
      var r := connection.Receive();
      if r.answer.errcode != 0 {
        raised := true;
      } else if r.opaqueId != |keys| + 10 {
        if |r.answer.body| < 4 {
          raised := true;
        } else {
          values := values[keys[r.opaqueId] := Parse(r.answer)];
        }
      } else {
        done := true;
      }
    }

    /** Reads up to the next response of a NOOP, unless a response before it raises. */
    method ReadValues(keys: seq<string>, before: map<string, Fetched>,
            ghost all: seq<Response>, ghost from: nat, ghost stop: nat)
      returns (raised: bool, values: map<string, Fetched>, ghost p: nat)
      requires from < stop <= |all| && connection.inbox == all[from..]
      requires |keys| <= |all| && Replies(all, |keys|, |all| - |keys|)
      requires stop == (if from == 0 then |keys| else from) + 1 > |keys|
      requires FirstMiss(all, |keys| + 10) >= from && before == CollectedTo(keys, all, from)
      modifies connection`inbox
      ensures p <= |all| && connection.inbox == all[p..]
      ensures raised ==> p == FirstMiss(all, |keys| + 10) + 1
      ensures !raised ==> FirstMiss(all, |keys| + 10) >= p == stop && values == CollectedTo(keys, all, p)
    {
      raised, values, p := false, before, from;
      var done := false;
      while !raised && !done
        invariant p <= stop && connection.inbox == all[p..]
        invariant !raised ==> (done <==> p == stop)
        invariant if raised then p == FirstMiss(all, |keys| + 10) + 1 else FirstMiss(all, |keys| + 10) >= p
        invariant !raised ==> values == CollectedTo(keys, all, p)
        decreases stop - p
      {
        FirstMissStep(all, |keys| + 10, p);
        CollectStep(keys, all, p);
        raised, done, values := ReadValue(keys, values);
        p := p + 1;
      }
    }

    /** Reads until the NOOP of every vbucket has been answered. */
    method ReadGets(keys: seq<string>, vbs: nat) returns (raised: bool, values: map<string, Fetched>)
      requires Replies(connection.inbox, |keys|, vbs) && (vbs > 0 || keys == [])
      modifies connection`inbox
      ensures var all := old(connection.inbox);
        var miss := FirstMiss(all, |keys| + 10);
        && (raised <==> miss < |all|)
        && (!raised ==> connection.inbox == [] && values == Collected(keys, all[..|keys|]))
        && (raised ==> connection.inbox == all[miss + 1..])
    {
      ghost var all, p: nat := connection.inbox, 0;
      raised, values := false, map[];
      for v := 0 to vbs
        invariant p == (if v == 0 then 0 else |keys| + v) && connection.inbox == all[p..]
        invariant FirstMiss(all, |keys| + 10) >= p
        invariant values == CollectedTo(keys, all, p)
      {
        raised, values, p := ReadValues(keys, values, all, p, |keys| + v + 1);
        if raised {
          return;
        }
      }
      assert keys[..|keys|] == keys;
    }

    /** Multi-get: the keys are asked for in order, then every vbucket is closed. If every key
        hits and every NOOP succeeds, no response is left and the result maps the keys to their
        values; otherwise it raises at the first response that is not good, and exactly the
        responses after it stay unread. */
    method GetMulti(keys: seq<string>, vbucket: int)
      returns (raised: bool, values: map<string, Fetched>, ghost noops: seq<Request>)
      requires vbucketCount > 0 && connection.inbox == []
      modifies connection
      ensures var requests := GetRequests(keys, vbucket, vbucketCount);
        && Closes(noops, |keys| + 10, VbucketsOf(requests))
        && connection.sent == old(connection.sent) + (requests + noops)
        && (raised <==> !AllAnswered(connection.server, old(connection.sent), requests, noops))
        && (raised ==> Unread(connection.inbox, Answers(connection.server, old(connection.sent), requests + noops), |keys| + 10))
        && (!raised ==> connection.inbox == [])
        && (!raised ==> Fetches(connection.server, old(connection.sent), requests, keys, values))
    {
      var requests := GetRequests(keys, vbucket, vbucketCount);
      ghost var before := connection.sent;
      var vbs := SendItems(requests);
      noops := SendNoops(|keys| + 10, vbs, before, requests);
      TagsOfAnswers(connection.server, before, requests, noops, vbs);
      SomeVbucket(requests);
      raised, values := ReadGets(keys, |vbs|);
      RaisesIff(connection.server, before, requests, noops, vbs);
      if !raised {
        AnswersInFront(connection.server, before, requests, noops);
        ValuesCollected(connection.server, before, requests, keys);
      }
    }
  }

  /** The responses behind the first one that is not good. */
  ghost predicate Unread(inbox: seq<Response>, all: seq<Response>, terminal: nat) {
    var miss := FirstMiss(all, terminal);
    miss < |all| && inbox == all[miss + 1..]
  }

  /** The keys asked for, each with the value in its last answer. */
  ghost predicate Fetches(server: Server, before: seq<Request>, requests: seq<Request>, keys: seq<string>, values: map<string, Fetched>)
    requires |keys| == |requests|
  {
    && (forall k :: k in values <==> k in keys)
    && forall i :: 0 <= i < |keys| && keys[i] !in keys[i + 1..] ==>
         IsValueOf(values[keys[i]], AnswerTo(server, before, requests, i).answer)
  }

  /** A fetched value: flags, cas and data. */
  datatype Fetched = Fetched(flags: nat, cas: nat, data: seq<Byte>)

  /** A response the multi-get goes on from: success, with four bytes of flags in it unless it
      is that of a NOOP. */
  predicate Good(r: Response, terminal: nat) {
    r.answer.errcode == 0 && (r.opaqueId == terminal || |r.answer.body| >= 4)
  }

  function Parse(a: Answer): Fetched {
    if |a.body| >= 4 then Fetched(Get(a.body[..4]), a.cas, a.body[4..]) else Fetched(0, 0, [])
  }

  /** A value as it stands in a response: four bytes of flags, most significant first, and behind
      them the data. */
  ghost predicate IsValueOf(f: Fetched, a: Answer) {
    var b: seq<nat> := a.body;
    && |b| >= 4 && f.cas == a.cas && f.data == b[4..]
    && f.flags == 0x100_0000 * b[0] + 0x1_0000 * b[1] + 0x100 * b[2] + b[3]
  }

  lemma {:induction false} ParseIs(a: Answer)
    requires |a.body| >= 4
    ensures IsValueOf(Parse(a), a)
  {
    GetFour(a.body[..4]);
  }

  /** The number of good responses at the head of a response stream. */
  function FirstMiss(rs: seq<Response>, terminal: nat): (n: nat)
    ensures n <= |rs|
    ensures forall k :: 0 <= k < n ==> Good(rs[k], terminal)
    ensures n < |rs| ==> !Good(rs[n], terminal)
  {
    if rs == [] || !Good(rs[0], terminal) then 0 else 1 + FirstMiss(rs[1..], terminal)
  }

  lemma {:induction false} FirstMissStep(rs: seq<Response>, terminal: nat, p: nat)
    requires p < |rs| && FirstMiss(rs, terminal) >= p
    ensures FirstMiss(rs, terminal) > p <==> Good(rs[p], terminal)
  {
  }

  /** Later values for a key replace earlier ones. */
  function Collected(keys: seq<string>, rs: seq<Response>): map<string, Fetched>
    requires |keys| == |rs|
  {
    if keys == [] then map[]
    else
      var n := |keys| - 1;
      Collected(keys[..n], rs[..n])[keys[n] := Parse(rs[n].answer)]
  }

  /** The values in the first `p` responses of a stream that goes on with those of NOOPs. */
  function CollectedTo(keys: seq<string>, all: seq<Response>, p: nat): map<string, Fetched>
    requires |keys| <= |all|
  {
    var n := if p <= |keys| then p else |keys|;
    Collected(keys[..n], all[..n])
  }

  lemma {:induction false} CollectStep(keys: seq<string>, all: seq<Response>, p: nat)
    requires |keys| <= |all| && p < |all|
    ensures CollectedTo(keys, all, p + 1) ==
            if p < |keys| then CollectedTo(keys, all, p)[keys[p] := Parse(all[p].answer)] else CollectedTo(keys, all, p)
  {
    if p < |keys| {
      assert keys[..p + 1][..p] == keys[..p] && all[..p + 1][..p] == all[..p];
    }
  }

  lemma {:induction false} CollectedKeys(keys: seq<string>, rs: seq<Response>)
    requires |keys| == |rs|
    ensures forall k :: k in Collected(keys, rs) <==> k in keys
  {
    if keys != [] {
      var n := |keys| - 1;
      CollectedKeys(keys[..n], rs[..n]);
      assert keys == keys[..n] + [keys[n]];
    }
  }

  lemma {:induction false} CollectedLast(keys: seq<string>, rs: seq<Response>, i: nat)
    requires |keys| == |rs| && i < |keys| && keys[i] !in keys[i + 1..]
    requires |rs[i].answer.body| >= 4
    ensures keys[i] in Collected(keys, rs) && Collected(keys, rs)[keys[i]] == Parse(rs[i].answer)
    ensures IsValueOf(Collected(keys, rs)[keys[i]], rs[i].answer)
    decreases |keys|
  {
    ParseIs(rs[i].answer);
    var n := |keys| - 1;
    if i < n {
      assert keys[n] == keys[i + 1..][n - i - 1];
      assert keys[..n][i + 1..] == keys[i + 1..][..n - i - 1];
      CollectedLast(keys[..n], rs[..n], i);
    }
  }

  function GetRequests(keys: seq<string>, vbucket: int, count: nat): (rs: seq<Request>)
    requires count > 0
    ensures |rs| == |keys| && forall i :: 0 <= i < |rs| ==>
      && rs[i].GetItem? && rs[i].opaqueId == i && rs[i].key == keys[i]
      && rs[i].vbucket == Crc32.SetVbucket(keys[i], vbucket, count)
  {
    seq(|keys|, i requires 0 <= i < |keys| => GetItem(i, Crc32.SetVbucket(keys[i], vbucket, count), keys[i]))
  }

  function SetRequests(items: seq<(string, string)>, vbucket: int, count: nat): (rs: seq<Request>)
    requires count > 0
    ensures |rs| == |items| && forall i :: 0 <= i < |rs| ==>
      && rs[i].SetItem? && rs[i].opaqueId == i && rs[i].key == items[i].0 && rs[i].val == items[i].1
      && rs[i].vbucket == Crc32.SetVbucket(items[i].0, vbucket, count)
  {
    seq(|items|, i requires 0 <= i < |items| =>
      SetItem(i, Crc32.SetVbucket(items[i].0, vbucket, count), items[i].0, items[i].1))
  }

  lemma {:induction false} SomeVbucket(items: seq<Request>)
    ensures |VbucketsOf(items)| > 0 || |items| == 0
  {
    if |items| > 0 {
      assert items[0].vbucket in VbucketsOf(items);
    }
  }

  /** The failures among the NOOPs come after those among the items. */
  lemma {:induction false} FailuresSplit(server: Server, before: seq<Request>, items: seq<Request>, noops: seq<Request>)
    ensures var all, behind := Answers(server, before, items + noops), Answers(server, before + items, noops);
      all[|items|..] == behind && (Succeed(behind) ==> Failures(all) == Failures(Answers(server, before, items)))
  {
    var all, front := Answers(server, before, items + noops), Answers(server, before, items);
    var behind := Answers(server, before + items, noops);
    AnswersInFront(server, before, items, noops);
    AnswersBehind(server, before, items, noops);
    assert all == front + behind;
    if Succeed(behind) {
      NoMoreFailures(front, behind);
    }
  }

  /** Every request is answered with success and a value. */
  ghost predicate AllValues(server: Server, before: seq<Request>, requests: seq<Request>) {
    forall i :: 0 <= i < |requests| ==>
      var a := AnswerTo(server, before, requests, i).answer; a.errcode == 0 && |a.body| >= 4
  }

  /** The last answer for every key. */
  lemma {:induction false} ValuesCollected(server: Server, before: seq<Request>, requests: seq<Request>, keys: seq<string>)
    requires |keys| == |requests| && AllValues(server, before, requests)
    ensures Fetches(server, before, requests, keys, Collected(keys, Answers(server, before, requests)))
  {
    var replies := Answers(server, before, requests);
    CollectedKeys(keys, replies);
    forall i | 0 <= i < |keys| && keys[i] !in keys[i + 1..]
      ensures IsValueOf(Collected(keys, replies)[keys[i]], replies[i].answer)
    {
      CollectedLast(keys, replies, i);
    }
  }

  ghost predicate AllAnswered(server: Server, before: seq<Request>, requests: seq<Request>, noops: seq<Request>) {
    AllValues(server, before, requests) && Succeed(Answers(server, before + requests, noops))
  }

  /** All responses are good if and only if every item is answered with a value and every NOOP
      with success. */
  lemma {:induction false} AllGoodIff(front: seq<Response>, behind: seq<Response>, terminal: nat)
    requires forall i :: 0 <= i < |front| ==> front[i].opaqueId != terminal
    requires forall i :: 0 <= i < |behind| ==> behind[i].opaqueId == terminal
    ensures FirstMiss(front + behind, terminal) == |front + behind| <==>
            (forall i :: 0 <= i < |front| ==> front[i].answer.errcode == 0 && |front[i].answer.body| >= 4)
            && Succeed(behind)
  {
    var all := front + behind;
    assert forall i :: 0 <= i < |front| ==> all[i] == front[i];
    assert forall i :: 0 <= i < |behind| ==> all[|front| + i] == behind[i];
    assert forall i :: |front| <= i < |all| ==> all[i] == behind[i - |front|];
  }

  lemma {:induction false} RaisesIff(server: Server, before: seq<Request>, items: seq<Request>, noops: seq<Request>, vbs: set<nat>)
    requires forall i :: 0 <= i < |items| ==> items[i].opaqueId == i
    requires Closes(noops, |items| + 10, vbs)
    ensures var all := Answers(server, before, items + noops);
      FirstMiss(all, |items| + 10) == |all| <==> AllAnswered(server, before, items, noops)
  {
    var front, behind := Answers(server, before, items), Answers(server, before + items, noops);
    AnswersInFront(server, before, items, noops);
    AnswersBehind(server, before, items, noops);
    assert Answers(server, before, items + noops) == front + behind;
    AllGoodIff(front, behind, |items| + 10);
  }
}
