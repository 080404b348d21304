/** `sum(participant_rewards.values())` (main.py:141) and what the message loop adds to it. */
module Sums {
  import opened Config
  import opened Reactions
  import opened Tally

  /** The sum of `Get(m, k)` over the keys `ks`. */
  ghost function SumOver(m: map<string, int>, ks: set<string>): int
    decreases ks
  {
    if ks == {} then 0 else var k :| k in ks; Get(m, k) + SumOver(m, ks - {k})
  }

  /** `sum(m.values())`. */
  ghost function MapSum(m: map<string, int>): int {
    SumOver(m, m.Keys)
  }

  /** Any key may be taken out of the sum first. */
  lemma {:induction false} SumOverRemove(m: map<string, int>, ks: set<string>, k: string)
    requires k in ks
    ensures SumOver(m, ks) == Get(m, k) + SumOver(m, ks - {k})
    decreases |ks|
  {
    var k' :| k' in ks && SumOver(m, ks) == Get(m, k') + SumOver(m, ks - {k'});
    if k' != k {
      SumOverRemove(m, ks - {k'}, k);
      SumOverRemove(m, ks - {k}, k');
      assert ks - {k'} - {k} == ks - {k} - {k'};
    }
  }

  /** Keys outside the map add nothing to the sum. */
  lemma {:induction false} SumOverAbsent(m: map<string, int>, a: set<string>, b: set<string>)
    requires forall k :: k in b ==> k !in m
    ensures SumOver(m, a + b) == SumOver(m, a)
    decreases |b - a|
  {
    if b - a != {} {
      var k :| k in b - a;
      SumOverRemove(m, a + b, k);
      assert (a + b) - {k} == a + (b - {k});
      SumOverAbsent(m, a, b - {k});
    } else {
      assert a + b == a;
    }
  }

  /** `c * n`, by repeated addition. */
  ghost function Scale(c: nat, n: int): int {
    if c == 0 then 0 else Scale(c - 1, n) + n
  }

  lemma {:induction false} ScaleIsProduct(c: nat, n: int)
    ensures Scale(c, n) == c * n
  {
    if c > 0 {
      ScaleIsProduct(c - 1, n);
      assert c * n == (c - 1) * n + n;
    }
  }

  /** Adding `n` to each key of `names` adds `n` once per such key to the sum. */
  lemma {:induction false} SumOverBumpAll(m: map<string, int>, names: set<string>, n: int, ks: set<string>)
    ensures SumOver(BumpAll(m, names, n), ks) == SumOver(m, ks) + Scale(|ks * names|, n)
    decreases |ks|
  {
    if ks != {} {
      var k :| k in ks;
      var rest := ks - {k};
      var b := BumpAll(m, names, n);
      var extra := if k in names then n else 0;
      BumpAllGet(m, names, n);
      assert Get(b, k) == Get(m, k) + extra;
      SumOverBumpAll(m, names, n, rest);
      SumOverRemove(b, ks, k);
      SumOverRemove(m, ks, k);
      CountStep(ks, names, k);
      assert Scale(|ks * names|, n) == Scale(|rest * names|, n) + extra;
    }
  }

  /** Taking `k` out of `ks` lowers the number of members of `names` by one exactly when `k` is one. */
  lemma CountStep(ks: set<string>, names: set<string>, k: string)
    requires k in ks
    ensures |ks * names| == |(ks - {k}) * names| + (if k in names then 1 else 0)
  {
    var rest := ks - {k};
    if k in names {
      assert k !in rest * names;
      assert ks * names == rest * names + {k};
    } else {
      assert ks * names == rest * names;
    }
  }

  /** `d[x] += n` for every `x` of `names` raises `sum(d.values())` by `|names| * n`. */
  lemma {:induction false} MapSumBumpAll(m: map<string, int>, names: set<string>, n: int)
    ensures MapSum(BumpAll(m, names, n)) == MapSum(m) + |names| * n
  {
    BumpAllGet(m, names, n);
    SumOverBumpAll(m, names, n, m.Keys + names);
    ScaleIsProduct(|names|, n);
    assert (m.Keys + names) * names == names;
    SumOverAbsent(m, m.Keys, names - m.Keys);
    assert m.Keys + (names - m.Keys) == m.Keys + names;
  }

  /** What one message pays out in all: its receivers times the payment each gets. */
  ghost function MessagePayout(m: Message): int {
    match MessageCrime(m)
    case None => 0
    case Some(c) =>
      |Approvers(m.reactions)| * Payment(c, HasEmoji(m.reactions, WinEmoji), HasEmoji(m.reactions, LoseEmoji))
  }

  /** What a sequence of messages pays out in all. */
  ghost function Payout(msgs: seq<Message>): int {
    if msgs == [] then 0 else Payout(msgs[..|msgs| - 1]) + MessagePayout(msgs[|msgs| - 1])
  }

  /**
   * The reported total (the sum over participants) equals the sum over messages of
   * receivers times payment.
   */
  lemma {:induction false} TotalRewardIsPayout(msgs: seq<Message>)
    ensures MapSum(Fold(Empty, msgs).rewards) == Payout(msgs)
  {
    if msgs != [] {
      var init, last := msgs[..|msgs| - 1], msgs[|msgs| - 1];
      TotalRewardIsPayout(init);
      var t := Fold(Empty, init);
      match MessageCrime(last)
      case None =>
      case Some(c) =>
        var p := Payment(c, HasEmoji(last.reactions, WinEmoji), HasEmoji(last.reactions, LoseEmoji));
        MapSumBumpAll(t.rewards, Approvers(last.reactions), p);
    }
  }

  /** The reported total does not depend on the order in which the messages come. */
  lemma TotalRewardOrderIndependent(a: seq<Message>, b: seq<Message>)
    requires multiset(a) == multiset(b)
    ensures MapSum(Fold(Empty, a).rewards) == MapSum(Fold(Empty, b).rewards)
    ensures Payout(a) == Payout(b)
  {
    FoldPermutation(Empty, a, b);
    TotalRewardIsPayout(a);
    TotalRewardIsPayout(b);
  }
}
