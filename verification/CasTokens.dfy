/** No lost update: in every run, a conditional write succeeds only on the very entry its token
    was issued for, and at most one write succeeds with a token. */
module CasTokens {
  import opened DictBackend

  /** Tokens in use have been handed out, and no two entries share one. */
  ghost predicate Distinct(s: State) {
    && s.nextToken > 0
    && (forall k :: k in s.storage ==> 0 < s.storage[k].token < s.nextToken)
    && (forall k, l :: k in s.storage && l in s.storage && s.storage[k].token == s.storage[l].token ==> k == l)
  }

  /** A command that can store an entry under its key. */
  predicate Writes(cmd: Command) {
    cmd.Set? || cmd.Add? || cmd.Replace? || cmd.Append? || cmd.Prepend?
  }

  predicate Conditional(cmd: Command) {
    (cmd.Set? || cmd.Append? || cmd.Prepend?) && cmd.cas != 0
  }

  /** What one command may do to the storage: an entry it leaves under a key is the one that was
      there, or one it has just stored with the next token. */
  ghost predicate StepShape(s: State, cmd: Command, s': State, r: Reply) {
    && s.nextToken <= s'.nextToken
    && (r.Stored? ==>
          && Writes(cmd) && r.token == s.nextToken && s'.nextToken == s.nextToken + 1
          && cmd.key in s'.storage && s'.storage[cmd.key].token == r.token)
    && (forall k :: k in s'.storage ==>
          || (k in s.storage && s'.storage[k] == s.storage[k])
          || (r.Stored? && k == cmd.key))
  }

  lemma {:induction false} StepHasShape(s: State, now: real, cmd: Command)
    ensures StepShape(s, cmd, Step(s, now, cmd).0, Step(s, now, cmd).1)
  {
  }

  lemma {:induction false} StepKeepsDistinct(s: State, now: real, cmd: Command)
    requires Distinct(s)
    ensures Distinct(Step(s, now, cmd).0)
  {
    StepHasShape(s, now, cmd);
  }

  lemma {:induction false} RunIsDistinct(trace: seq<Event>, k: nat)
    requires k <= |trace|
    ensures Distinct(Before(trace, k))
  {
    if k > 0 {
      RunIsDistinct(trace, k - 1);
      StepKeepsDistinct(Before(trace, k - 1), trace[k - 1].now, trace[k - 1].cmd);
    }
  }

  /** Event `i` stored this entry under `key`, and it has stayed there untouched until before `k`. */
  ghost predicate UntouchedSince(trace: seq<Event>, i: nat, k: nat, key: string, e: Entry)
    requires i < k <= |trace|
  {
    && Writes(trace[i].cmd) && trace[i].cmd.key == key && ReplyTo(trace, i) == Stored(e.token)
    && forall m :: i < m <= k ==> key in Before(trace, m).storage && Before(trace, m).storage[key] == e
  }

  /** Every entry has such an origin. */
  lemma {:induction false} Origin(trace: seq<Event>, k: nat, key: string) returns (i: nat)
    requires k <= |trace| && key in Before(trace, k).storage
    ensures i < k && UntouchedSince(trace, i, k, key, Before(trace, k).storage[key])
  {
    var p := k - 1;
    var s, s' := Before(trace, p), Before(trace, k);
    if key in s.storage && s.storage[key] == s'.storage[key] {
      i := Origin(trace, p, key);
      StillUntouched(trace, i, p, key, s.storage[key]);
    } else {
      i := p;
      JustStored(trace, p, key);
    }
  }

  lemma {:induction false} JustStored(trace: seq<Event>, i: nat, key: string)
    requires i < |trace| && key in Before(trace, i + 1).storage
    requires key in Before(trace, i).storage ==> Before(trace, i).storage[key] != Before(trace, i + 1).storage[key]
    ensures UntouchedSince(trace, i, i + 1, key, Before(trace, i + 1).storage[key])
  {
    StepHasShape(Before(trace, i), trace[i].now, trace[i].cmd);
  }

  lemma {:induction false} StillUntouched(trace: seq<Event>, i: nat, k: nat, key: string, e: Entry)
    requires i < k < |trace| && UntouchedSince(trace, i, k, key, e)
    requires key in Before(trace, k + 1).storage && Before(trace, k + 1).storage[key] == e
    ensures UntouchedSince(trace, i, k + 1, key, e)
  {
  }

  /** A conditional write goes ahead only if the entry before it carries the token. */
  lemma {:induction false} ConditionalNeedsToken(s: State, now: real, cmd: Command)
    requires Conditional(cmd) && Step(s, now, cmd).1.Stored?
    ensures cmd.key in s.storage && s.storage[cmd.key].token == cmd.cas
  {
  }

  /** A set, append or prepend with a token succeeds only if some earlier event stored an entry
      under that key with that token, and since then nothing has replaced or removed it. */
  lemma {:induction false} NoLostUpdate(trace: seq<Event>, k: nat) returns (i: nat)
    requires k < |trace| && Conditional(trace[k].cmd) && ReplyTo(trace, k).Stored?
    ensures i < k
    ensures var key := trace[k].cmd.key;
      key in Before(trace, k).storage && Before(trace, k).storage[key].token == trace[k].cmd.cas
      && UntouchedSince(trace, i, k, key, Before(trace, k).storage[key])
  {
    ConditionalNeedsToken(Before(trace, k), trace[k].now, trace[k].cmd);
    i := Origin(trace, k, trace[k].cmd.key);
  }

  /** The token has been handed out and no entry carries it. */
  ghost predicate Spent(s: State, token: nat) {
    token < s.nextToken && forall k :: k in s.storage ==> s.storage[k].token != token
  }

  lemma {:induction false} StaysSpent(trace: seq<Event>, i: nat, j: nat, token: nat)
    requires i <= j <= |trace| && Spent(Before(trace, i), token)
    ensures Spent(Before(trace, j), token)
  {
    if i < j {
      StaysSpent(trace, i, j - 1, token);
      StepHasShape(Before(trace, j - 1), trace[j - 1].now, trace[j - 1].cmd);
    }
  }

  lemma {:induction false} WinnerSpendsToken(s: State, now: real, cmd: Command)
    requires Distinct(s) && Conditional(cmd) && Step(s, now, cmd).1.Stored?
    ensures Spent(Step(s, now, cmd).0, cmd.cas)
  {
    ConditionalNeedsToken(s, now, cmd);
    StepHasShape(s, now, cmd);
  }

  /** Of all the conditional writes of a run that hold the same token, on whatever keys, at most
      one succeeds. */
  lemma {:induction false} OneWinnerPerToken(trace: seq<Event>, i: nat, j: nat)
    requires i < |trace| && j < |trace|
    requires Conditional(trace[i].cmd) && Conditional(trace[j].cmd) && trace[i].cmd.cas == trace[j].cmd.cas
    requires ReplyTo(trace, i).Stored? && ReplyTo(trace, j).Stored?
    ensures i == j
  {
    if i < j {
      SecondLoses(trace, i, j);
    } else if j < i {
      SecondLoses(trace, j, i);
    }
  }

  lemma {:induction false} SecondLoses(trace: seq<Event>, i: nat, j: nat)
    requires i < j < |trace|
    requires Conditional(trace[i].cmd) && Conditional(trace[j].cmd) && trace[i].cmd.cas == trace[j].cmd.cas
    requires ReplyTo(trace, i).Stored?
    ensures !ReplyTo(trace, j).Stored?
  {
    RunIsDistinct(trace, i);
    WinnerSpendsToken(Before(trace, i), trace[i].now, trace[i].cmd);
    StaysSpent(trace, i + 1, j, trace[i].cmd.cas);
    if ReplyTo(trace, j).Stored? {
      ConditionalNeedsToken(Before(trace, j), trace[j].now, trace[j].cmd);
    }
  }
}
