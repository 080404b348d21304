/** Messages and their reactions, and the reaction loop of `calculate` (main.py:105-120). */
module Reactions {

  /** A reacting user: whether the account is a bot, and its display name. */
  datatype User = User(isBot: bool, displayName: string)

  /** One reaction on a message: its emoji, as `str(reaction.emoji)`, and the users who gave it. */
  datatype Reaction = Reaction(emoji: string, users: seq<User>)

  /** One message of the channel history: its text and its reactions, in the platform's order. */
  datatype Message = Message(content: string, reactions: seq<Reaction>)

  /** The win mark `⭕️` as written in the source: U+2B55 followed by the variation selector U+FE0F. */
  const WinEmoji: string := "\U{2B55}\U{FE0F}"
  /** The lose mark `❌`. */
  const LoseEmoji: string := "\U{274C}"
  /** The approval mark `✅`: its human reactors are paid. */
  const ApproveEmoji: string := "\U{2705}"

  /** The three marks are different strings, so the if/elif chain below never has to choose. */
  lemma EmojisDistinct()
    ensures WinEmoji != LoseEmoji && WinEmoji != ApproveEmoji && LoseEmoji != ApproveEmoji
  {
    assert |WinEmoji| == 2 && |LoseEmoji| == 1 && LoseEmoji[0] != ApproveEmoji[0];
  }

  /** Some reaction of `rs` carries emoji `e`. */
  predicate HasEmoji(rs: seq<Reaction>, e: string) {
    exists i :: 0 <= i < |rs| && rs[i].emoji == e
  }

  /** Display names of the non-bot users in `us` (main.py:118-120). */
  function HumanNames(us: seq<User>): set<string> {
    if us == [] then {}
    else HumanNames(us[..|us| - 1]) + (if us[|us| - 1].isBot then {} else {us[|us| - 1].displayName})
  }

  /** `reward_receivers` after the reaction loop: the approvers, collected reaction by reaction. */
  function Approvers(rs: seq<Reaction>): set<string> {
    if rs == [] then {}
    else Approvers(rs[..|rs| - 1]) + (if rs[|rs| - 1].emoji == ApproveEmoji then HumanNames(rs[|rs| - 1].users) else {})
  }

  /** A name is collected exactly when some non-bot user with that display name is among `us`. */
  lemma {:induction false} HumanNamesSpec(us: seq<User>, n: string)
    ensures n in HumanNames(us) <==> exists u :: u in us && !u.isBot && u.displayName == n
  {
    if us != [] {
      var init := us[..|us| - 1];
      HumanNamesSpec(init, n);
      assert forall u :: u in us <==> u in init || u == us[|us| - 1];
    }
  }

  /**
   * `reward_receivers` holds exactly the display names of non-bot users who
   * reacted with the approval mark: nobody else is ever paid.
   */
  lemma {:induction false} ApproversSpec(rs: seq<Reaction>, n: string)
    ensures n in Approvers(rs) <==>
      exists i, u :: 0 <= i < |rs| && rs[i].emoji == ApproveEmoji && u in rs[i].users && !u.isBot && u.displayName == n
  {
    if rs != [] {
      var init := rs[..|rs| - 1];
      var last := rs[|rs| - 1];
      ApproversSpec(init, n);
      HumanNamesSpec(last.users, n);
      if n in Approvers(rs) && n !in Approvers(init) {
        var u :| u in last.users && !u.isBot && u.displayName == n;
        assert rs[|rs| - 1] == last;
      }
      if n in Approvers(init) {
        var i, u :| 0 <= i < |init| && init[i].emoji == ApproveEmoji && u in init[i].users && !u.isBot && u.displayName == n;
        assert rs[i] == init[i];
      }
      if exists i, u :: 0 <= i < |rs| && rs[i].emoji == ApproveEmoji && u in rs[i].users && !u.isBot && u.displayName == n {
        var i, u :| 0 <= i < |rs| && rs[i].emoji == ApproveEmoji && u in rs[i].users && !u.isBot && u.displayName == n;
        if i < |init| {
          assert init[i] == rs[i];
        }
      }
    }
  }

  /** The outcome a message's win and lose marks stand for. */
  datatype Outcome = Win | Loss | Undecided | Contested

  function OutcomeOf(win: bool, lose: bool): (o: Outcome) {
    if win && lose then Contested
    else if win then Win
    else if lose then Loss
    else Undecided
  }

  /**
   * The source's two tests read as outcomes: the statistics test of main.py:123
   * holds exactly for Win and Loss, the clean-win test of main.py:130 exactly for
   * Win; Contested means both marks, Undecided neither.
   */
  lemma OutcomeTests(win: bool, lose: bool)
    ensures ((win || lose) && !(win && lose)) <==> OutcomeOf(win, lose) in {Win, Loss}
    ensures (win && !lose) <==> OutcomeOf(win, lose) == Win
    ensures OutcomeOf(win, lose) == Contested <==> win && lose
    ensures OutcomeOf(win, lose) == Undecided <==> !win && !lose
  {
  }

  /**
   * The reaction loop (main.py:105-120): raise the win and lose flags and collect
   * the approvers. The emoji test is an if/elif chain, so each reaction is looked at once.
   */
  method Classify(rs: seq<Reaction>) returns (win: bool, lose: bool, receivers: set<string>)
    ensures win <==> HasEmoji(rs, WinEmoji)
    ensures lose <==> HasEmoji(rs, LoseEmoji)
    ensures receivers == Approvers(rs)
  {
    win, lose, receivers := false, false, {};
    for i := 0 to |rs|
      invariant win <==> HasEmoji(rs[..i], WinEmoji)
      invariant lose <==> HasEmoji(rs[..i], LoseEmoji)
      invariant receivers == Approvers(rs[..i])
    {
      assert rs[..i + 1][..i] == rs[..i];
      assert forall k :: 0 <= k < i ==> rs[..i + 1][k] == rs[..i][k];
      var emoji := rs[i].emoji;
      if emoji == WinEmoji {
        win := true;
      } else if emoji == LoseEmoji {
        lose := true;
      } else if emoji == ApproveEmoji {
        var users := rs[i].users;
        ghost var before := receivers;
        for j := 0 to |users|
          invariant receivers == before + HumanNames(users[..j])
        {
          assert users[..j + 1][..j] == users[..j];
          if !users[j].isBot {
            receivers := receivers + {users[j].displayName};
          }
        }
        assert users[..|users|] == users;
      }
    }
    assert rs[..|rs|] == rs;
  }
}
