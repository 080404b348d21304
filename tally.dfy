/**
 * The four accumulators of `calculate` (main.py:84-87) as one value, and what one
 * message does to them (main.py:93-134), stated as functions.
 */
module Tally {
  import opened Wrappers
  import opened Config
  import opened Extract
  import opened Matcher
  import opened Reactions

  /**
   * `participant_rewards`, `participant_total`, `participant_rich` and
   * `unpaid_participants`. Each is a `defaultdict(int)`: a missing key reads as 0
   * and `+=` inserts it.
   */
  datatype Tally = Tally(rewards: map<string, int>, total: map<string, int>,
                         rich: map<string, int>, unpaid: map<string, int>)

  const Empty: Tally := Tally(map[], map[], map[], map[])

  /** `d[k]` on a `defaultdict(int)`. */
  function Get(m: map<string, int>, k: string): int {
    if k in m then m[k] else 0
  }

  /** `d[k] += n` on a `defaultdict(int)`. */
  function Bump(m: map<string, int>, k: string, n: int): map<string, int> {
    m[k := Get(m, k) + n]
  }

  /** `d[k] += n` inserts `k`, raises it by `n` and leaves every other key alone. */
  lemma BumpGet(m: map<string, int>, k: string, n: int)
    ensures Bump(m, k, n).Keys == m.Keys + {k}
    ensures forall x :: Get(Bump(m, k, n), x) == Get(m, x) + (if x == k then n else 0)
  {
  }

  /** `d[x] += n` for every `x` of `names`. */
  function BumpAll(m: map<string, int>, names: set<string>, n: int): map<string, int> {
    map x | x in m.Keys + names :: Get(m, x) + (if x in names then n else 0)
  }

  /** `d[x] += n` for every `x` of `names` inserts those keys, raises each by `n` and leaves the rest alone. */
  lemma BumpAllGet(m: map<string, int>, names: set<string>, n: int)
    ensures BumpAll(m, names, n).Keys == m.Keys + names
    ensures forall x :: Get(BumpAll(m, names, n), x) == Get(m, x) + (if x in names then n else 0)
  {
  }

  /** The crime a message reports, if its token resolves (main.py:94-103). */
  function MessageCrime(m: Message): (r: Option<string>)
    ensures r.Some? ==> IsCanonical(r.value) && r.value in CrimePayment
  {
    CanonicalHavePayments();
    match CrimeToken(m.content)
    case None => None
    case Some(token) => MatchCrimeName(token)
  }

  /** A message that reports `crime` is absorbed with its own flags and approvers. */
  lemma StepMatched(t: Tally, m: Message, crime: string)
    requires MessageCrime(m) == Some(crime)
    ensures Step(t, m) == Absorb(t, crime, HasEmoji(m.reactions, WinEmoji), HasEmoji(m.reactions, LoseEmoji), Approvers(m.reactions))
  {
  }

  /** The per-participant payment for a message of `crime` (main.py:130-133). */
  function Payment(crime: string, win: bool, lose: bool): int {
    if OutcomeOf(win, lose) == Win then PaymentFor(crime) else FailPayment
  }

  /** The statistics test of main.py:123: exactly one of the two marks. */
  predicate Decided(win: bool, lose: bool) {
    OutcomeOf(win, lose) == Win || OutcomeOf(win, lose) == Loss
  }

  /** main.py:123-134 for a message of `crime` with the given flags and receivers. */
  function Absorb(t: Tally, crime: string, win: bool, lose: bool, receivers: set<string>): Tally {
    Tally(BumpAll(t.rewards, receivers, Payment(crime, win, lose)),
          if Decided(win, lose) then Bump(t.total, crime, 1) else t.total,
          if Decided(win, lose) && win then Bump(t.rich, crime, 1) else t.rich,
          BumpAll(t.unpaid, receivers, 1))
  }

  /** One iteration of the message loop (main.py:93-134). */
  function Step(t: Tally, m: Message): Tally {
    match MessageCrime(m)
    case None => t
    case Some(crime) =>
      Absorb(t, crime, HasEmoji(m.reactions, WinEmoji), HasEmoji(m.reactions, LoseEmoji), Approvers(m.reactions))
  }

  /** The whole message loop, message by message in the given order. */
  function Fold(t: Tally, msgs: seq<Message>): Tally {
    if msgs == [] then t else Step(Fold(t, msgs[..|msgs| - 1]), msgs[|msgs| - 1])
  }

  /** The consistency the loop keeps between the four accumulators. */
  ghost predicate Inv(t: Tally) {
    && t.rich.Keys <= t.total.Keys
    && (forall c :: c in t.total ==> IsCanonical(c) && 0 <= Get(t.rich, c) <= t.total[c])
    && t.rewards.Keys == t.unpaid.Keys
    && (forall n :: n in t.unpaid ==> PaidWithin(Get(t.rewards, n), t.unpaid[n]))
  }

  /** `count` paid events yield at least `count` failure payments and at most `count` top payments. */
  predicate PaidWithin(reward: int, count: int) {
    1 <= count && FailPayment * count <= reward <= MaxPayment * count
  }

  lemma EmptyInv()
    ensures Inv(Empty)
  {
  }

  /**
   * A message for which `re.search` finds no match (no marker, or no marker whose
   * bracket closes on its line), or whose token names no crime, changes nothing
   * (main.py:95-103).
   */
  lemma StepSkips(t: Tally, m: Message)
    requires CrimeToken(m.content).None? || MatchCrimeName(CrimeToken(m.content).value).None?
    ensures MessageCrime(m).None?
    ensures Step(t, m) == t
  {
  }

  /** In particular, a message in which the marker does not occur changes nothing. */
  lemma StepSkipsNoMarker(t: Tally, m: Message)
    requires !Strings.Occurs(Marker, m.content)
    ensures Step(t, m) == t
  {
    NoMarkerNoToken(m.content);
    StepSkips(t, m);
  }

  /**
   * Per message, a crime's `participant_total` grows by 1 exactly when the message
   * reports that crime with exactly one of the two marks, and otherwise stays;
   * `participant_rich` grows by 1 exactly when, in addition, the mark is the win mark.
   */
  lemma StepStats(t: Tally, m: Message, c: string)
    ensures var t' := Step(t, m);
      var w := HasEmoji(m.reactions, WinEmoji);
      var l := HasEmoji(m.reactions, LoseEmoji);
      var hit := MessageCrime(m) == Some(c);
      && Get(t'.total, c) == Get(t.total, c) + (if hit && Decided(w, l) then 1 else 0)
      && Get(t'.rich, c) == Get(t.rich, c) + (if hit && Decided(w, l) && w then 1 else 0)
      && (c in t'.total <==> c in t.total || (hit && Decided(w, l)))
      && (c in t'.rich <==> c in t.rich || (hit && Decided(w, l) && w))
  {
    match MessageCrime(m)
    case None =>
    case Some(crime) =>
  }

  /**
   * Per message, every receiver gains the crime's payment on a clean win and
   * `FAIL_PAYMENT` otherwise, and one more unpaid event; everybody else is unchanged.
   */
  lemma {:induction false} StepRewards(t: Tally, m: Message, n: string)
    ensures var t' := Step(t, m);
      var paid := MessageCrime(m).Some? && n in Approvers(m.reactions);
      var w := HasEmoji(m.reactions, WinEmoji);
      var l := HasEmoji(m.reactions, LoseEmoji);
      && Get(t'.rewards, n) == Get(t.rewards, n) + (if !paid then 0 else if w && !l then CrimePayment[MessageCrime(m).value] else FailPayment)
      && Get(t'.unpaid, n) == Get(t.unpaid, n) + (if paid then 1 else 0)
      && (n in t'.rewards <==> n in t.rewards || paid)
  {
    if MessageCrime(m).Some? {
      StepMatched(t, m, MessageCrime(m).value);
    }
  }

  /** One message keeps the invariant. */
  lemma {:induction false} StepInv(t: Tally, m: Message)
    requires Inv(t)
    ensures Inv(Step(t, m))
  {
    var t' := Step(t, m);
    forall c | c in t'.total ensures IsCanonical(c) && 0 <= Get(t'.rich, c) <= t'.total[c] {
      StepStats(t, m, c);
      assert c in t.total || MessageCrime(m) == Some(c);
    }
    forall n | n in t'.unpaid ensures PaidWithin(Get(t'.rewards, n), t'.unpaid[n]) {
      StepRewards(t, m, n);
      StepPaysWithin(t, m, n);
    }
    match MessageCrime(m)
    case None =>
    case Some(c) =>
      assert t'.rich.Keys <= t'.total.Keys;
      assert t'.rewards.Keys == t'.unpaid.Keys;
  }

  /** One message keeps one participant's reward within the bounds of their count. */
  lemma {:induction false} StepPaysWithin(t: Tally, m: Message, n: string)
    requires n in t.unpaid ==> PaidWithin(Get(t.rewards, n), t.unpaid[n])
    requires n !in t.unpaid ==> Get(t.rewards, n) == 0
    requires n in Step(t, m).unpaid
    ensures PaidWithin(Get(Step(t, m).rewards, n), Get(Step(t, m).unpaid, n))
  {
    StepRewards(t, m, n);
    match MessageCrime(m)
    case None =>
    case Some(c) =>
      var p := Payment(c, HasEmoji(m.reactions, WinEmoji), HasEmoji(m.reactions, LoseEmoji));
      assert FailPayment <= p <= MaxPayment;
  }

  /** `rich[c] <= total[c]`, and the other parts of Inv, after any sequence of messages. */
  lemma {:induction false} FoldInv(msgs: seq<Message>)
    ensures Inv(Fold(Empty, msgs))
  {
    if msgs != [] {
      FoldInv(msgs[..|msgs| - 1]);
      StepInv(Fold(Empty, msgs[..|msgs| - 1]), msgs[|msgs| - 1]);
    }
  }

  /** The number of messages of `msgs` that report crime `c` with exactly one of the two marks. */
  function DecidedCount(msgs: seq<Message>, c: string): nat {
    if msgs == [] then 0
    else
      var m := msgs[|msgs| - 1];
      DecidedCount(msgs[..|msgs| - 1], c)
        + (if MessageCrime(m) == Some(c) && Decided(HasEmoji(m.reactions, WinEmoji), HasEmoji(m.reactions, LoseEmoji)) then 1 else 0)
  }

  /** The number of those messages that carry the win mark. */
  function WonCount(msgs: seq<Message>, c: string): nat {
    if msgs == [] then 0
    else
      var m := msgs[|msgs| - 1];
      WonCount(msgs[..|msgs| - 1], c)
        + (if MessageCrime(m) == Some(c) && Decided(HasEmoji(m.reactions, WinEmoji), HasEmoji(m.reactions, LoseEmoji))
              && HasEmoji(m.reactions, WinEmoji) then 1 else 0)
  }

  /**
   * After any history, `participant_total[c]` is the number of decided reports of `c`
   * and `participant_rich[c]` the number of won ones; a crime has an entry exactly
   * when it has such a report.
   */
  lemma {:induction false} FoldCounts(msgs: seq<Message>, c: string)
    ensures var t := Fold(Empty, msgs);
      && Get(t.total, c) == DecidedCount(msgs, c)
      && Get(t.rich, c) == WonCount(msgs, c)
      && (c in t.total <==> DecidedCount(msgs, c) > 0)
      && (c in t.rich <==> WonCount(msgs, c) > 0)
  {
    if msgs != [] {
      FoldCounts(msgs[..|msgs| - 1], c);
      StepStats(Fold(Empty, msgs[..|msgs| - 1]), msgs[|msgs| - 1], c);
    }
  }

  /** The message has a crime, and `n` approved it. */
  ghost predicate PaidBy(m: Message, n: string) {
    MessageCrime(m).Some? && n in Approvers(m.reactions)
  }

  /**
   * Every key of `participant_rewards` is a non-bot display name that reacted with the
   * approval mark on some message that reports a crime.
   */
  lemma {:induction false} FoldProvenance(msgs: seq<Message>, n: string)
    requires n in Fold(Empty, msgs).rewards
    ensures exists i :: 0 <= i < |msgs| && PaidBy(msgs[i], n)
    ensures exists i, r, u ::
      0 <= i < |msgs| && r in msgs[i].reactions && r.emoji == ApproveEmoji && u in r.users && !u.isBot && u.displayName == n
  {
    var init := msgs[..|msgs| - 1];
    var last := msgs[|msgs| - 1];
    StepRewards(Fold(Empty, init), last, n);
    var i;
    if n in Fold(Empty, init).rewards {
      FoldProvenance(init, n);
      i :| 0 <= i < |init| && PaidBy(init[i], n);
      assert msgs[i] == init[i];
    } else {
      i := |msgs| - 1;
    }
    assert PaidBy(msgs[i], n);
    ApproversSpec(msgs[i].reactions, n);
    var k, u :| 0 <= k < |msgs[i].reactions| && msgs[i].reactions[k].emoji == ApproveEmoji
      && u in msgs[i].reactions[k].users && !u.isBot && u.displayName == n;
    assert msgs[i].reactions[k] in msgs[i].reactions;
  }

  /** Processing `a` then `b` is processing `a + b`. */
  lemma {:induction false} FoldAppend(t: Tally, a: seq<Message>, b: seq<Message>)
    ensures Fold(t, a + b) == Fold(Fold(t, a), b)
    decreases |b|
  {
    if b == [] {
      assert a + b == a;
    } else {
      assert (a + b)[..|a + b| - 1] == a + b[..|b| - 1];
      FoldAppend(t, a, b[..|b| - 1]);
    }
  }

  lemma BumpCommutes(m: map<string, int>, j: string, k: string, x: int, y: int)
    ensures Bump(Bump(m, j, x), k, y) == Bump(Bump(m, k, y), j, x)
  {
    var l, r := Bump(Bump(m, j, x), k, y), Bump(Bump(m, k, y), j, x);
    assert forall z :: z in l ==> l[z] == Get(l, z) == Get(r, z) == r[z];
  }

  lemma BumpAllCommutes(m: map<string, int>, s1: set<string>, s2: set<string>, x: int, y: int)
    ensures BumpAll(BumpAll(m, s1, x), s2, y) == BumpAll(BumpAll(m, s2, y), s1, x)
  {
    var l, r := BumpAll(BumpAll(m, s1, x), s2, y), BumpAll(BumpAll(m, s2, y), s1, x);
    assert forall z :: z in l ==> l[z] == Get(l, z) == Get(r, z) == r[z];
  }

  /** Two messages give the same accumulators in either order. */
  lemma {:induction false} StepCommutes(t: Tally, m1: Message, m2: Message)
    ensures Step(Step(t, m1), m2) == Step(Step(t, m2), m1)
  {
    match (MessageCrime(m1), MessageCrime(m2))
    case (Some(c1), Some(c2)) =>
      AbsorbCommutes(t, c1, HasEmoji(m1.reactions, WinEmoji), HasEmoji(m1.reactions, LoseEmoji), Approvers(m1.reactions),
                     c2, HasEmoji(m2.reactions, WinEmoji), HasEmoji(m2.reactions, LoseEmoji), Approvers(m2.reactions));
    case _ =>
  }

  /** Two matched messages, given by their crimes, flags and receivers, commute. */
  lemma AbsorbCommutes(t: Tally, c1: string, w1: bool, l1: bool, a1: set<string>,
                       c2: string, w2: bool, l2: bool, a2: set<string>)
    ensures Absorb(Absorb(t, c1, w1, l1, a1), c2, w2, l2, a2) == Absorb(Absorb(t, c2, w2, l2, a2), c1, w1, l1, a1)
  {
    BumpAllCommutes(t.rewards, a1, a2, Payment(c1, w1, l1), Payment(c2, w2, l2));
    BumpAllCommutes(t.unpaid, a1, a2, 1, 1);
    BumpCommutes(t.total, c1, c2, 1, 1);
    BumpCommutes(t.rich, c1, c2, 1, 1);
  }

  /** A message may move from the end of a block to its front. */
  lemma {:induction false} FoldMoveToFront(t: Tally, a: seq<Message>, x: Message)
    ensures Fold(t, a + [x]) == Fold(Step(t, x), a)
    decreases |a|
  {
    if a == [] {
      assert [x][..0] == [];
      assert Fold(t, [x]) == Step(t, x);
    } else {
      var init, last := a[..|a| - 1], a[|a| - 1];
      calc {
        Fold(t, a + [x]);
        { assert (a + [x])[..|a + [x]| - 1] == a; }
        Step(Fold(t, a), x);
        { assert a[..|a| - 1] == init; }
        Step(Step(Fold(t, init), last), x);
        { StepCommutes(Fold(t, init), last, x); }
        Step(Step(Fold(t, init), x), last);
        { FoldMoveToFront(t, init, x); }
        Step(Fold(Step(t, x), init), last);
        { assert a[..|a| - 1] == init; }
        Fold(Step(t, x), a);
      }
    }
  }

  /** Message `k` may be processed first. */
  lemma {:induction false} FoldRemoveAt(t: Tally, b: seq<Message>, k: int)
    requires 0 <= k < |b|
    ensures Fold(t, b) == Fold(Step(t, b[k]), b[..k] + b[k + 1..])
  {
    var x := b[k];
    calc {
      Fold(t, b);
      { assert b == (b[..k] + [x]) + b[k + 1..]; }
      Fold(t, (b[..k] + [x]) + b[k + 1..]);
      { FoldAppend(t, b[..k] + [x], b[k + 1..]); }
      Fold(Fold(t, b[..k] + [x]), b[k + 1..]);
      { FoldMoveToFront(t, b[..k], x); }
      Fold(Fold(Step(t, x), b[..k]), b[k + 1..]);
      { FoldAppend(Step(t, x), b[..k], b[k + 1..]); }
      Fold(Step(t, x), b[..k] + b[k + 1..]);
    }
  }

  /**
   * The accumulators do not depend on the order of the messages: any permutation of
   * the same messages gives the same rewards, counts and statistics.
   */
  lemma {:induction false} FoldPermutation(t: Tally, a: seq<Message>, b: seq<Message>)
    requires multiset(a) == multiset(b)
    ensures Fold(t, a) == Fold(t, b)
    decreases |a|
  {
    if a != [] {
      var x := a[0];
      assert x in multiset(b);
      var k :| 0 <= k < |b| && b[k] == x;
      var b' := b[..k] + b[k + 1..];
      assert b == b[..k] + [x] + b[k + 1..];
      assert a == [x] + a[1..];
      calc {
        multiset(b);
        multiset(b[..k] + [x] + b[k + 1..]);
        multiset(b[..k]) + multiset{x} + multiset(b[k + 1..]);
        multiset(b') + multiset{x};
      }
      assert multiset(a) == multiset{x} + multiset(a[1..]);
      assert multiset(a[1..]) == multiset(a) - multiset{x};
      assert multiset(b') == multiset(b) - multiset{x};
      FoldRemoveAt(t, a, 0);
      assert a[..0] + a[1..] == a[1..];
      FoldRemoveAt(t, b, k);
      FoldPermutation(Step(t, x), a[1..], b');
    }
  }
}
