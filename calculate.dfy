/**
 * The body of the `calculate` command without its platform I/O: the message loop
 * (main.py:84-134) and the numbers the report is made of (main.py:141, main.py:145-148).
 */
module Calculate {
  import opened Wrappers
  import opened Config
  import opened Extract
  import opened Matcher
  import opened Reactions
  import opened Tally
  import opened Sums

  /**
   * The message loop over the fetched history (main.py:84-134). The four
   * `defaultdict`s are local maps, as in the source; the result is the processed
   * value of `Fold`, and the invariant between the accumulators holds.
   */
  method Calculate(messages: seq<Message>) returns (t: Tally)
    ensures t == Fold(Empty, messages)
    ensures Inv(t)
  {
    var rewards: map<string, int> := map[];
    var total: map<string, int> := map[];
    var rich: map<string, int> := map[];
    var unpaid: map<string, int> := map[];
    for i := 0 to |messages|
      invariant Tally(rewards, total, rich, unpaid) == Fold(Empty, messages[..i])
    {
      assert messages[..i + 1][..i] == messages[..i];
      rewards, total, rich, unpaid := ProcessMessage(rewards, total, rich, unpaid, messages[i]);
    }
    assert messages[..|messages|] == messages;
    t := Tally(rewards, total, rich, unpaid);
    FoldInv(messages);
  }

  /** One iteration of the message loop (main.py:94-134). */
  method ProcessMessage(rewards: map<string, int>, total: map<string, int>, rich: map<string, int>,
                        unpaid: map<string, int>, message: Message)
    returns (rewards': map<string, int>, total': map<string, int>, rich': map<string, int>, unpaid': map<string, int>)
    ensures Tally(rewards', total', rich', unpaid') == Step(Tally(rewards, total, rich, unpaid), message)
  {
    rewards', total', rich', unpaid' := rewards, total, rich, unpaid;
    ghost var t := Tally(rewards, total, rich, unpaid);
    var crimeMatch := CrimeToken(message.content);
    if crimeMatch.None? {
      assert MessageCrime(message).None?;
      return;
    }
    var crime := MatchCrimeName(crimeMatch.value);
    if crime.None? {
      assert MessageCrime(message).None?;
      return;
    }
    var c := crime.value;
    var win, lose, receivers := Classify(message.reactions);
    assert MessageCrime(message) == Some(c);
    StepMatched(t, message, c);

    if (win || lose) && !(win && lose) {
      total' := total'[c := Get(total', c) + 1];
      if win {
        rich' := rich'[c := Get(rich', c) + 1];
      }
    }
    assert total' == Absorb(t, c, win, lose, receivers).total;
    assert rich' == Absorb(t, c, win, lose, receivers).rich;
    rewards', unpaid' := PayReceivers(rewards', unpaid', receivers, win && !lose, PaymentFor(c));
  }

  /**
   * The payment loop (main.py:129-134): each receiver gets the crime's payment on
   * a clean win and `FAIL_PAYMENT` otherwise, and one more unpaid event.
   */
  method PayReceivers(rewards: map<string, int>, unpaid: map<string, int>, receivers: set<string>,
                      cleanWin: bool, crimePayment: int)
    returns (rewards': map<string, int>, unpaid': map<string, int>)
    ensures rewards' == BumpAll(rewards, receivers, if cleanWin then crimePayment else FailPayment)
    ensures unpaid' == BumpAll(unpaid, receivers, 1)
  {
    ghost var pay := if cleanWin then crimePayment else FailPayment;
    rewards', unpaid' := rewards, unpaid;
    var left := receivers;
    ghost var done: set<string> := {};
    BumpAllNone(rewards, pay);
    BumpAllNone(unpaid, 1);
    while left != {}
      invariant done + left == receivers && done !! left
      invariant rewards' == BumpAll(rewards, done, pay)
      invariant unpaid' == BumpAll(unpaid, done, 1)
      decreases left
    {
      var name :| name in left;
      BumpAllExtend(rewards, done, name, pay);
      BumpAllExtend(unpaid, done, name, 1);
      if cleanWin {
        rewards' := rewards'[name := Get(rewards', name) + crimePayment];
      } else {
        rewards' := rewards'[name := Get(rewards', name) + FailPayment];
      }
      unpaid' := unpaid'[name := Get(unpaid', name) + 1];
      left, done := left - {name}, done + {name};
    }
    assert done == receivers;
  }

  /** A bulk increment of nobody changes nothing. */
  lemma BumpAllNone(m: map<string, int>, n: int)
    ensures BumpAll(m, {}, n) == m
  {
    var l := BumpAll(m, {}, n);
    assert forall z :: z in l ==> l[z] == Get(l, z) == Get(m, z) == m[z];
  }

  /** Adding one more name to a bulk increment is one more single increment. */
  lemma BumpAllExtend(m: map<string, int>, done: set<string>, name: string, n: int)
    requires name !in done
    ensures BumpAll(m, done + {name}, n) == Bump(BumpAll(m, done, n), name, n)
  {
    var l, r := BumpAll(m, done + {name}, n), Bump(BumpAll(m, done, n), name, n);
    assert forall z :: z in l ==> l[z] == Get(l, z) == Get(r, z) == r[z];
  }

  /** `sum(participant_rewards.values())` (main.py:141), key by key. */
  method TotalReward(rewards: map<string, int>) returns (sum: int)
    ensures sum == MapSum(rewards)
  {
    sum := 0;
    var left := rewards.Keys;
    while left != {}
      invariant left <= rewards.Keys
      invariant sum == SumOver(rewards, rewards.Keys - left)
      decreases left
    {
      var k :| k in left;
      SumOverRemove(rewards, (rewards.Keys - left) + {k}, k);
      assert (rewards.Keys - left) + {k} - {k} == rewards.Keys - left;
      sum := sum + rewards[k];
      assert rewards.Keys - (left - {k}) == (rewards.Keys - left) + {k};
      left := left - {k};
    }
    assert rewards.Keys - left == rewards.Keys;
  }

  /**
   * The win rate in percent, `round(rich / total * 100) if total else 0`
   * (main.py:148), on exact rationals: the integer nearest to `100 * rich / total`,
   * ties to the even neighbour as Python's `round` does; 0 when `total` is 0.
   */
  function WinRate(rich: nat, total: nat): (r: int)
    ensures total == 0 ==> r == 0
    ensures total > 0 ==> 2 * Dist(r * total, 100 * rich) <= total
    ensures total > 0 && 2 * Dist(r * total, 100 * rich) == total ==> r % 2 == 0
    ensures rich <= total ==> 0 <= r <= 100
    ensures 0 < total && rich == total ==> r == 100
    ensures rich == 0 ==> r == 0
  {
    if total == 0 then 0
    else
      var q := (100 * rich) / total;
      var rem := (100 * rich) % total;
      var r := if 2 * rem < total then q
               else if 2 * rem > total then q + 1
               else if q % 2 == 0 then q
               else q + 1;
      RoundHalfEven(100 * rich, total, q, rem, r);
      RateBounds(rich, total, q, rem, r);
      r
  }

  /** Rounding `x / d` to the nearest integer, ties to even, from its quotient and remainder. */
  lemma RoundHalfEven(x: nat, d: nat, q: int, rem: int, r: int)
    requires d > 0 && x == q * d + rem && 0 <= rem < d
    requires r == (if 2 * rem < d then q else if 2 * rem > d then q + 1 else if q % 2 == 0 then q else q + 1)
    ensures 2 * Dist(r * d, x) <= d
    ensures 2 * Dist(r * d, x) == d ==> r % 2 == 0
  {
    assert (q + 1) * d == q * d + d;
    if r == q {
      assert r * d - x == -rem;
    } else {
      assert r * d - x == d - rem;
    }
  }

  /** A rate of `rich` out of `total` with `rich <= total` lies in 0..100. */
  lemma RateBounds(rich: nat, total: nat, q: int, rem: int, r: int)
    requires total > 0 && 100 * rich == q * total + rem && 0 <= rem < total
    requires r == q || (r == q + 1 && 2 * rem >= total)
    ensures rich <= total ==> 0 <= r <= 100
    ensures rich == total ==> r == 100
    ensures rich == 0 ==> r == 0
  {
    if q <= -1 {
      MulMono(q, -1, total);
    }
    if rich <= total && q >= 101 {
      MulMono(101, q, total);
    }
    if rich <= total && q == 100 {
      assert rem == 100 * rich - 100 * total;
    }
    if rich == total && q <= 99 {
      MulMono(q, 99, total);
    }
    if rich == 0 && q >= 1 {
      MulMono(1, q, total);
    }
  }

  lemma MulMono(a: int, b: int, c: nat)
    requires a <= b
    ensures a * c <= b * c
  {
  }

  function Dist(a: int, b: int): nat {
    if a < b then b - a else a - b
  }

  /** The report's numbers: the total payment and each crime's win rate, with its counts. */
  datatype CrimeStat = CrimeStat(rate: int, total: int, rich: int)

  /** The win-rate block of the report (main.py:145-149), one entry per key of `participant_total`. */
  function Stats(t: Tally): (s: map<string, CrimeStat>)
    requires Inv(t)
    ensures s.Keys == t.total.Keys
    ensures forall c :: c in s ==> 0 <= s[c].rich <= s[c].total && 0 <= s[c].rate <= 100
  {
    map c | c in t.total :: CrimeStat(WinRate(Get(t.rich, c), t.total[c]), t.total[c], Get(t.rich, c))
  }

  /**
   * Each crime's statistics entry as a function of the history: it exists exactly
   * when the crime has a decided report, and holds the decided and won counts and
   * the rate between them.
   */
  lemma StatsFromHistory(msgs: seq<Message>, c: string)
    ensures Inv(Fold(Empty, msgs))
    ensures c in Stats(Fold(Empty, msgs)) <==> DecidedCount(msgs, c) > 0
    ensures c in Stats(Fold(Empty, msgs)) ==>
      Stats(Fold(Empty, msgs))[c] == CrimeStat(WinRate(WonCount(msgs, c), DecidedCount(msgs, c)), DecidedCount(msgs, c), WonCount(msgs, c))
  {
    FoldInv(msgs);
    FoldCounts(msgs, c);
  }

  /**
   * The whole command after the fetch: process the history, then sum and compute the
   * rates. The total is the sum of the per-participant rewards, which is also what
   * the messages pay out; each crime's entry holds its decided and won counts.
   */
  method Report(messages: seq<Message>) returns (rewards: map<string, int>, totalReward: int, stats: map<string, CrimeStat>)
    ensures rewards == Fold(Empty, messages).rewards
    ensures totalReward == MapSum(rewards)
    ensures totalReward == Payout(messages)
    ensures Inv(Fold(Empty, messages)) && stats == Stats(Fold(Empty, messages))
    ensures forall c :: c in stats <==> DecidedCount(messages, c) > 0
    ensures forall c :: c in stats ==>
      stats[c] == CrimeStat(WinRate(WonCount(messages, c), DecidedCount(messages, c)), DecidedCount(messages, c), WonCount(messages, c))
  {
    var t := Calculate(messages);
    rewards := t.rewards;
    totalReward := TotalReward(t.rewards);
    TotalRewardIsPayout(messages);
    stats := Stats(t);
    forall c
      ensures (c in stats <==> DecidedCount(messages, c) > 0)
      ensures c in stats ==>
        stats[c] == CrimeStat(WinRate(WonCount(messages, c), DecidedCount(messages, c)), DecidedCount(messages, c), WonCount(messages, c))
    {
      StatsFromHistory(messages, c);
    }
  }
}
