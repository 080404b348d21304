/** Concrete reports and what the model proves of them. */
module Scenarios {
  import opened Wrappers
  import opened Strings
  import opened Kana
  import opened Config
  import opened Extract
  import opened Matcher
  import opened Reactions
  import opened Tally
  import opened Calculate

  const Conbini: string := "コンビニ強盗"

  /** A report of a convenience-store robbery. */
  const ConbiniReport: string := "犯罪種類[コンビニ]"

  lemma ConbiniToken()
    ensures CrimeToken(ConbiniReport) == Some("コンビニ")
  {
    assert ConbiniReport[0..5] == Marker;
    assert CloseFrom(ConbiniReport, 5) == Some(9);
    assert SearchFrom(ConbiniReport, 0) == Some(Span(0, 9));
    assert ConbiniReport[5..9] == "コンビニ";
  }

  lemma ConbiniName()
    ensures MatchCrimeName("コンビニ") == Some(Conbini)
  {
    assert OccursAt("コンビニ", "コンビニ", 0);
    AliasInTokenResolves("コンビニ", 0, "コンビニ");
  }

  /** The single user "A", a human. */
  const A: User := User(false, "A")

  /** The message loop over one message is one step. */
  lemma FoldOne(m: Message)
    ensures Fold(Empty, [m]) == Step(Empty, m)
  {
    assert [m][..0] == [];
  }

  /** A convenience-store report that resolves, whatever its reactions. */
  lemma ConbiniCrime(rs: seq<Reaction>)
    ensures MessageCrime(Message(ConbiniReport, rs)) == Some(Conbini)
  {
    ConbiniToken();
    ConbiniName();
  }

  /** A convenience-store report is absorbed with its own flags and approvers. */
  lemma ConbiniAbsorbed(rs: seq<Reaction>)
    ensures Fold(Empty, [Message(ConbiniReport, rs)])
         == Absorb(Empty, Conbini, HasEmoji(rs, WinEmoji), HasEmoji(rs, LoseEmoji), Approvers(rs))
  {
    FoldOne(Message(ConbiniReport, rs));
    ConbiniCrime(rs);
    StepMatched(Empty, Message(ConbiniReport, rs), Conbini);
  }

  /** The first increment of a fresh `defaultdict`. */
  lemma FirstBump(k: string, v: int)
    ensures BumpAll(map[], {k}, v) == map[k := v]
    ensures Bump(map[], k, v) == map[k := v]
  {
    BumpAllGet(map[], {k}, v);
    var b := BumpAll(map[], {k}, v);
    assert b.Keys == {k};
  }

  /** The marks and approvers of a list of reactions with no approval, plus one approval by `approve`. */
  lemma ReactionsOf(init: seq<Reaction>, approve: seq<User>)
    requires forall i :: 0 <= i < |init| ==> init[i].emoji != ApproveEmoji
    ensures var rs := init + [Reaction(ApproveEmoji, approve)];
      && (HasEmoji(rs, WinEmoji) <==> HasEmoji(init, WinEmoji))
      && (HasEmoji(rs, LoseEmoji) <==> HasEmoji(init, LoseEmoji))
      && Approvers(rs) == HumanNames(approve)
  {
    EmojisDistinct();
    var rs := init + [Reaction(ApproveEmoji, approve)];
    assert rs[..|rs| - 1] == init;
    NoApprovalNoApprovers(init);
    assert forall i :: 0 <= i < |init| ==> rs[i] == init[i];
  }

  /** Reactions without the approval mark collect nobody. */
  lemma {:induction false} NoApprovalNoApprovers(rs: seq<Reaction>)
    requires forall i :: 0 <= i < |rs| ==> rs[i].emoji != ApproveEmoji
    ensures Approvers(rs) == {}
  {
    if rs != [] {
      NoApprovalNoApprovers(rs[..|rs| - 1]);
    }
  }

  /** A clean win on a convenience-store robbery pays 200000. */
  lemma ConbiniPayment()
    ensures Payment(Conbini, true, false) == 200000
  {
    assert PaymentFor(Conbini) == 200000;
  }

  /** The accumulators after a report with the win mark and "A"'s approval. */
  lemma WinFold()
    ensures Fold(Empty, [Message(ConbiniReport, [Reaction(WinEmoji, [A]), Reaction(ApproveEmoji, [A])])])
         == Tally(map["A" := 200000], map[Conbini := 1], map[Conbini := 1], map["A" := 1])
  {
    EmojisDistinct();
    var init := [Reaction(WinEmoji, [A])];
    var rs := [Reaction(WinEmoji, [A]), Reaction(ApproveEmoji, [A])];
    assert rs == init + [Reaction(ApproveEmoji, [A])];
    ReactionsOf(init, [A]);
    assert init[0].emoji == WinEmoji;
    assert HumanNames([A]) == {"A"} by { assert [A][..0] == []; }
    ConbiniAbsorbed(rs);
    ConbiniPayment();
    assert Fold(Empty, [Message(ConbiniReport, rs)]) == Absorb(Empty, Conbini, true, false, {"A"});
    FirstBump("A", 200000);
    FirstBump("A", 1);
    FirstBump(Conbini, 1);
  }

  /**
   * A report with the win mark and "A"'s approval: "A" is credited the crime's
   * success payment, and the crime's statistics read 1/1, 100%.
   */
  lemma WinScenario()
    ensures var t := Fold(Empty, [Message(ConbiniReport, [Reaction(WinEmoji, [A]), Reaction(ApproveEmoji, [A])])]);
      && t.rewards == map["A" := 200000]
      && t.unpaid == map["A" := 1]
      && t.total == map[Conbini := 1]
      && t.rich == map[Conbini := 1]
      && Inv(t) && Stats(t) == map[Conbini := CrimeStat(100, 1, 1)]
  {
    var msgs := [Message(ConbiniReport, [Reaction(WinEmoji, [A]), Reaction(ApproveEmoji, [A])])];
    WinFold();
    FoldInv(msgs);
    StatsOfSingleCrime(Fold(Empty, msgs), Conbini, 1, 1);
  }

  /** The accumulators after the same report with the lose mark instead. */
  lemma LossFold()
    ensures Fold(Empty, [Message(ConbiniReport, [Reaction(LoseEmoji, [A]), Reaction(ApproveEmoji, [A])])])
         == Tally(map["A" := FailPayment], map[Conbini := 1], map[], map["A" := 1])
  {
    EmojisDistinct();
    var init := [Reaction(LoseEmoji, [A])];
    var rs := [Reaction(LoseEmoji, [A]), Reaction(ApproveEmoji, [A])];
    assert rs == init + [Reaction(ApproveEmoji, [A])];
    ReactionsOf(init, [A]);
    assert init[0].emoji == LoseEmoji;
    assert HumanNames([A]) == {"A"} by { assert [A][..0] == []; }
    ConbiniAbsorbed(rs);
    assert Fold(Empty, [Message(ConbiniReport, rs)]) == Absorb(Empty, Conbini, false, true, {"A"});
    FirstBump("A", FailPayment);
    FirstBump("A", 1);
    FirstBump(Conbini, 1);
  }

  /**
   * The same report with the lose mark instead: "A" is credited `FAIL_PAYMENT`,
   * and the statistics read 0/1, 0%.
   */
  lemma LossScenario()
    ensures var t := Fold(Empty, [Message(ConbiniReport, [Reaction(LoseEmoji, [A]), Reaction(ApproveEmoji, [A])])]);
      && t.rewards == map["A" := FailPayment]
      && t.unpaid == map["A" := 1]
      && t.total == map[Conbini := 1]
      && t.rich == map[]
      && Inv(t) && Stats(t) == map[Conbini := CrimeStat(0, 1, 0)]
  {
    var msgs := [Message(ConbiniReport, [Reaction(LoseEmoji, [A]), Reaction(ApproveEmoji, [A])])];
    LossFold();
    FoldInv(msgs);
    StatsOfSingleCrime(Fold(Empty, msgs), Conbini, 1, 0);
  }

  /** The statistics block when a single crime has been counted. */
  lemma StatsOfSingleCrime(t: Tally, c: string, total: nat, rich: nat)
    requires Inv(t) && t.total == map[c := total] && Get(t.rich, c) == rich
    ensures Stats(t) == map[c := CrimeStat(WinRate(rich, total), total, rich)]
  {
    var s := Stats(t);
    assert s.Keys == {c};
  }

  /** A user "B" and a bot account. */
  const B: User := User(false, "B")
  const Bot: User := User(true, "Bot")

  /**
   * Both marks (a contested report) and approval by "B" and by a bot: "B" is still
   * credited `FAIL_PAYMENT`, the bot is not paid, and the statistics are untouched.
   */
  lemma ContestedScenario()
    ensures var t := Fold(Empty, [Message(ConbiniReport,
                          [Reaction(WinEmoji, [B, Bot]), Reaction(LoseEmoji, [B, Bot]), Reaction(ApproveEmoji, [B, Bot])])]);
      && t.rewards == map["B" := FailPayment]
      && t.unpaid == map["B" := 1]
      && t.total == map[]
      && t.rich == map[]
  {
    EmojisDistinct();
    var init := [Reaction(WinEmoji, [B, Bot]), Reaction(LoseEmoji, [B, Bot])];
    var rs := [Reaction(WinEmoji, [B, Bot]), Reaction(LoseEmoji, [B, Bot]), Reaction(ApproveEmoji, [B, Bot])];
    assert rs == init + [Reaction(ApproveEmoji, [B, Bot])];
    ReactionsOf(init, [B, Bot]);
    assert init[0].emoji == WinEmoji && init[1].emoji == LoseEmoji;
    assert HumanNames([B, Bot]) == {"B"} by {
      assert [B, Bot][..1] == [B];
      assert [B][..0] == [];
      assert HumanNames([B]) == {"B"};
    }
    ConbiniAbsorbed(rs);
    FirstBump("B", FailPayment);
    FirstBump("B", 1);
  }

  /** A report spelt in hiragana resolves to the same crime as the katakana spelling. */
  lemma HiraganaSpelling(rs: seq<Reaction>)
    ensures MatchCrimeName("こんびに") == MatchCrimeName("コンビニ") == Some(Conbini)
    ensures MessageCrime(Message("犯罪種類[こんびに強盗]", rs)) == Some(Conbini)
  {
    assert Normalize("こんびに") == Normalize("コンビニ") == "こんびに";
    MatchCrimeNameScriptInvariant("こんびに", "コンビニ");
    ConbiniName();
    HiraganaToken();
    var token := "こんびに強盗";
    assert OccursAt(Normalize("コンビニ"), token, 0);
    AliasInTokenResolves(token, 0, "コンビニ");
  }

  lemma HiraganaToken()
    ensures CrimeToken("犯罪種類[こんびに強盗]") == Some("こんびに強盗")
  {
    var text := "犯罪種類[こんびに強盗]";
    assert text[0..5] == Marker;
    assert CloseFrom(text, 5) == Some(11);
    assert SearchFrom(text, 0) == Some(Span(0, 11));
    assert text[5..11] == "こんびに強盗";
  }

  /**
   * A marker whose bracket is not closed on its own line does not match; the
   * search goes on to the next marker.
   */
  lemma SearchSkipsUnclosedMarker()
    ensures CrimeToken("犯罪種類[a\n犯罪種類[b]") == Some("b")
  {
    var text := "犯罪種類[a\n犯罪種類[b]";
    UnclosedFirstMarker();
    assert text[7..12] == Marker;
    assert CloseFrom(text, 12) == Some(13);
    assert SearchFrom(text, 7) == Some(Span(7, 13));
    assert text[12..13] == "b";
  }

  lemma UnclosedFirstMarker()
    ensures SearchFrom("犯罪種類[a\n犯罪種類[b]", 0) == SearchFrom("犯罪種類[a\n犯罪種類[b]", 7)
  {
    var text := "犯罪種類[a\n犯罪種類[b]";
    assert text[0..5] == Marker;
    assert text[6] == '\n';
    assert CloseFrom(text, 5) == None;
    assert text[1..6] != Marker by { assert text[1] != Marker[0]; }
    assert text[2..7] != Marker by { assert text[2] != Marker[0]; }
    assert text[3..8] != Marker by { assert text[3] != Marker[0]; }
    assert text[4..9] != Marker by { assert text[4] != Marker[0]; }
    assert text[5..10] != Marker by { assert text[5] != Marker[0]; }
    assert text[6..11] != Marker by { assert text[6] != Marker[0]; }
  }

  /** A report whose bracket is never closed has no match, so the message is skipped. */
  lemma UnclosedMarkerSkipped(t: Tally, rs: seq<Reaction>)
    ensures CrimeToken("犯罪種類[abc") == None
    ensures Step(t, Message("犯罪種類[abc", rs)) == t
  {
    var text := "犯罪種類[abc";
    assert text[0..5] == Marker;
    assert CloseFrom(text, 5) == None;
    assert text[1..6] != Marker by { assert text[1] != Marker[0]; }
    assert text[2..7] != Marker by { assert text[2] != Marker[0]; }
    assert text[3..8] != Marker by { assert text[3] != Marker[0]; }
    assert SearchFrom(text, 0) == None;
    StepSkips(t, Message(text, rs));
  }
}
