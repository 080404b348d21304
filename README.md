# Reward bookkeeping of the `!calculate` command

This is a Dafny model of the Discord bot in `main.py`, limited to the bookkeeping its `!calculate`
command does, with the platform taken out. Each message in the collecting channel is a crime report:
`犯罪種類[<crime>]`, plus reactions.
- ⭕️ marks a win and ❌ a loss.
- Members who react ✅ are the participants still owed a hazard payment.

The command extracts the token from each report and resolves it to a canonical crime name, with
katakana and hiragana treated alike. It then classifies the reactions and updates four
`defaultdict(int)` accumulators:
- per participant: payment owed and number of unpaid events;
- per crime: decided reports and won reports.

From these it reports the payment total and a win rate per crime.

Modules, in dependency order:
- `Wrappers`: `Option`.
- `Strings`: substring search (Python's `in` on strings).
- `Kana`: the katakana-to-hiragana normalisation. `jaconv.kata2hira` is a library call; the model
  assumes it maps U+30A1..U+30F6 down by 0x60 and leaves every other character alone.
- `Config`: `CRIME_ALIASES`, `CRIME_PAYMENT`, `FAIL_PAYMENT` and the `500000` default.
- `Extract`: `re.search(r"犯罪種類\[(.*?)\]", text).group(1)` as a leftmost-match search.
- `Matcher`: `match_crime_name`.
- `Reactions`: messages, reactions and users as values, and the reaction loop as a method.
- `Tally`: what one message does to the four accumulators, as functions. Also the invariants,
  provenance and order independence.
- `Sums`: `sum(participant_rewards.values())` and its relation to per-message payouts.
- `Calculate`: the message loop and the report numbers as methods over local maps, proved against
  `Tally.Fold`.
- `Scenarios`: concrete reports and their outcomes.

Details the model keeps exactly:
- The win mark in the source is the two code points U+2B55 U+FE0F, and the model compares against
  that exact string. A bare U+2B55 reaction is therefore neither a win nor a loss.
- `re.search` finds the leftmost marker that is followed by a `]` with no newline before it. The
  token is everything up to the first such `]`. When the first marker's bracket is not closed on its
  own line, the search moves on to a later marker (`Scenarios.SearchSkipsUnclosedMarker`). The
  token is therefore not always "the text after the first marker".

## Model

| member | source | states |
|---|---|---|
| Strings.Contains | main.py:45 | `alias_hira in hira_text` is true exactly when the needle occurs at some position of the haystack |
| Kana.KataToHira | main.py:41 | the assumed `kata2hira` on one character never yields katakana, and it takes every katakana letter to a hiragana one |
| Kana.Normalize | main.py:41 | normalisation keeps the length and is pointwise `KataToHira` |
| Kana.NormalizeNoKatakana | main.py:41 | a normalised text contains no katakana |
| Kana.NormalizeIdempotent | main.py:41-44 | normalising twice is normalising once |
| Kana.NormalizeKeepsOccurrence | main.py:44-45 | an occurrence of an alias in the token is an occurrence of the normalised alias in the normalised token |
| Config.PaymentFor | main.py:131 | `CRIME_PAYMENT.get(crime, 500000)` lies between `FAIL_PAYMENT` and 500000, and is the table entry for every canonical crime |
| Config.CanonicalHavePayments | main.py:24-35 | every canonical name of `CRIME_ALIASES` is a key of `CRIME_PAYMENT`, so the 500000 default is never used |
| Config.CanonicalDistinct | main.py:24-28 | the canonical names of `CRIME_ALIASES` are pairwise distinct |
| Config.AliasesNonEmpty | main.py:24-28 | every crime of `CRIME_ALIASES` has at least one alias, and every alias is a non-empty string |
| Extract.ClosesUnique | main.py:95 | the lazy group has one end only: the first `]` after it, with no newline in between |
| Extract.CloseFrom | main.py:95 | the lazy `(.*?)\]` from a position: the first `]` when no newline comes before it, else no match |
| Extract.SearchFrom | main.py:95 | the leftmost match at or after a position, or proof that none starts there |
| Extract.CrimeToken | main.py:95-100 | `crime_match.group(1)`, or None when there is no match; characterised by Extract.CrimeTokenSpec and Extract.CrimeTokenShape |
| Extract.CrimeTokenSpec | main.py:95-100 | `group(1)` is the text between the leftmost matching marker and its first `]`, and no earlier position matches |
| Extract.CrimeTokenShape | main.py:95-100 | the token contains no `]` and no newline, and the marker, token and `]` occur in the text |
| Extract.NoMarkerNoToken | main.py:95-97 | a text without `犯罪種類[` yields no match |
| Matcher.AnyAliasIn | main.py:43-46 | the inner loop succeeds exactly when some normalised alias of the entry occurs in the normalised token |
| Matcher.MatchIn | main.py:42-47 | the scan returns None exactly when no entry has a hit, and otherwise the canonical name of the first entry in declaration order that has one |
| Matcher.MatchCrimeName | main.py:40-47 | a resolved name is always one of the canonical names |
| Matcher.MatchCrimeNameSpec | main.py:40-47 | None iff no alias of any crime occurs in the normalised token, otherwise the first such crime in declaration order |
| Matcher.MatchCrimeNameNormalized | main.py:41 | a text and its normalised form resolve to the same crime |
| Matcher.MatchCrimeNameScriptInvariant | main.py:41-44 | two spellings with the same normalised form, such as katakana and hiragana, resolve to the same crime |
| Matcher.AliasInTokenResolves | main.py:42-46 | a token containing an alias of entry k, in either script, resolves to entry k when no earlier entry hits |
| Matcher.FirstHitShift | main.py:42-46 | proof helper: when the first entry is not hit, the scan's answer is that of the remaining entries |
| Matcher.EmptyTokenNoCrime | main.py:40-47 | the empty token (`犯罪種類[]`) resolves to no crime, since every alias is non-empty |
| Reactions.EmojisDistinct | main.py:112-116 | the three marks are different strings, so the `if`/`elif` chain tests each reaction against exactly one of them |
| Reactions.HasEmoji | main.py:110-116 | some reaction of the message carries the given mark; Reactions.Classify sets each flag exactly when it holds |
| Reactions.HumanNames | main.py:118-120 | the display names of the non-bot users of one reaction; characterised by Reactions.HumanNamesSpec |
| Reactions.Approvers | main.py:107-120 | `reward_receivers`; characterised by Reactions.ApproversSpec |
| Reactions.HumanNamesSpec | main.py:118-120 | a name is collected from a reaction exactly when a non-bot user with that display name reacted |
| Reactions.ApproversSpec | main.py:107-120 | `reward_receivers` holds exactly the display names of non-bot users of the ✅ reactions |
| Reactions.OutcomeOf | main.py:123-130 | the outcome the two marks stand for: contested, win, loss or undecided; characterised by Reactions.OutcomeTests |
| Reactions.OutcomeTests | main.py:123-130 | the four outcomes (win, loss, undecided, contested) against the source's tests: the statistics test holds exactly for Win or Loss, the payment test exactly for Win; `Tally.Decided` and `Tally.Payment` are written through these outcomes |
| Reactions.Classify | main.py:105-120 | the reaction loop sets the win and lose flags exactly when such a reaction is present, and collects exactly the approvers |
| Tally.Get | main.py:124 | reading a `defaultdict(int)`: a missing key reads as 0 |
| Tally.Bump | main.py:124 | `d[k] += n` on a `defaultdict(int)`; its keys and values are stated by Tally.BumpGet |
| Tally.BumpAll | main.py:129-134 | `d[x] += n` for every receiver `x`; its keys and values are stated by Tally.BumpAllGet |
| Tally.BumpGet | main.py:124 | `d[k] += n` inserts `k`, raises it by `n` and leaves every other key unchanged |
| Tally.BumpAllGet | main.py:129-134 | the receiver loop inserts every receiver, raises each by the same amount and leaves other names unchanged |
| Tally.MessageCrime | main.py:94-103 | the crime of a matched message is canonical and has a table payment |
| Tally.Payment | main.py:130-133 | the payment per receiver: the crime's payment when the outcome is Win (a clean win), `FAIL_PAYMENT` otherwise; its bounds are stated by Tally.StepPaysWithin |
| Tally.Decided | main.py:123 | the statistics test: the outcome is Win or Loss, which Reactions.OutcomeTests shows is exactly one of the two marks; Tally.StepStats and Tally.FoldCounts state what it guards |
| Tally.Absorb | main.py:122-134 | what a matched message does to the four accumulators; its effect is stated by Tally.StepStats and Tally.StepRewards |
| Tally.Step | main.py:93-134 | one iteration of the message loop; the method Calculate.ProcessMessage computes it, and Tally.StepSkips, Tally.StepStats, Tally.StepRewards and Tally.StepInv state its effect |
| Tally.Fold | main.py:93 | the message loop over the history in its order; the method Calculate.Calculate computes it, and Tally.FoldInv, Tally.FoldCounts, Tally.FoldProvenance and Tally.FoldPermutation state its properties |
| Tally.StepMatched | main.py:105-134 | a message whose token resolves is absorbed with its mark flags and its set of approvers |
| Tally.StepSkips | main.py:95-103 | a message on which `re.search` finds no match (no marker, or no marker whose `[` closes on its line), or whose token names no crime, has no crime and leaves all four accumulators unchanged |
| Tally.StepSkipsNoMarker | main.py:95-97 | a message in which the marker does not occur leaves all four accumulators unchanged |
| Tally.StepStats | main.py:122-126 | per message, `total[c]` grows by 1 exactly when the message is about `c` with exactly one mark, else not at all; `rich[c]` grows with it and only on a win; keys appear only then |
| Tally.StepRewards | main.py:128-134 | each receiver gains the crime payment on a clean win and `FAIL_PAYMENT` otherwise, plus one unpaid event; every other name is unchanged |
| Tally.EmptyInv | main.py:84-87 | the empty accumulators satisfy the invariant |
| Tally.StepInv | main.py:122-134 | the invariant survives each message: `rich[c] <= total[c]`, crimes are canonical, rewards and unpaid share keys, and rewards lie within the paid-event bounds |
| Tally.StepPaysWithin | main.py:129-134 | each paid event adds between `FAIL_PAYMENT` and 500000 |
| Tally.FoldInv | main.py:93-134 | after any history the invariant holds |
| Tally.DecidedCount | main.py:123-124 | the number of reports of a crime with exactly one of the two marks; related to the history by Tally.FoldCounts |
| Tally.WonCount | main.py:125-126 | the number of those reports that carry the win mark; related to the history by Tally.FoldCounts |
| Tally.FoldCounts | main.py:93-126 | after any history, `participant_total[c]` is the number of decided reports of `c` and `participant_rich[c]` the number of won ones, and a crime has an entry exactly when it has such a report |
| Tally.FoldProvenance | main.py:107-134 | every rewarded name is the display name of a non-bot user who reacted ✅ on a matched report |
| Tally.FoldAppend | main.py:93 | processing `a + b` is processing `a`, then `b` |
| Tally.BumpCommutes | main.py:124-134 | two increments of a `defaultdict` commute |
| Tally.BumpAllCommutes | main.py:129-134 | two bulk increments commute |
| Tally.AbsorbCommutes | main.py:122-134 | two matched messages, given by crime, flags and receivers, leave the accumulators the same in either order |
| Tally.StepCommutes | main.py:123-134 | two messages leave the accumulators the same in either order |
| Tally.FoldMoveToFront | main.py:93 | a message at the end of the history can be processed first instead |
| Tally.FoldRemoveAt | main.py:93 | any message of the history can be processed first |
| Tally.FoldPermutation | main.py:93-134 | any reordering of the history gives identical accumulators |
| Sums.MapSum | main.py:141 | `sum(participant_rewards.values())`; the method Calculate.TotalReward computes it, and Sums.TotalRewardIsPayout relates it to the history |
| Sums.SumOverRemove | main.py:141 | any key may be taken out of the sum first |
| Sums.SumOverAbsent | main.py:141 | names without a value add nothing to the sum |
| Sums.ScaleIsProduct | main.py:129-134 | proof helper: repeated addition is multiplication, so paying `n` to `c` receivers adds `c * n` |
| Sums.SumOverBumpAll | main.py:129-134 | a bulk increment raises a partial sum by the amount times the number of receivers among the summed keys |
| Sums.CountStep | main.py:129 | proof helper (set counting): removing one key from the summed set lowers its receiver count by one exactly when it is a receiver |
| Sums.MapSumBumpAll | main.py:129-134 | one message raises the reward total by the number of receivers times the payment |
| Sums.TotalRewardIsPayout | main.py:129-141 | the reported total equals the sum over messages of receivers times payment |
| Sums.TotalRewardOrderIndependent | main.py:93-141 | the reported total does not depend on the message order |
| Calculate.Calculate | main.py:84-134 | the message loop over local maps ends in the accumulators of `Tally.Fold`, and the invariant holds |
| Calculate.ProcessMessage | main.py:94-134 | one loop iteration, with its two `continue`s, is one `Tally.Step` |
| Calculate.PayReceivers | main.py:129-134 | the receiver loop is the bulk increment by the chosen payment, with one unpaid event each |
| Calculate.BumpAllNone | main.py:129 | a receiver loop over nobody changes nothing |
| Calculate.BumpAllExtend | main.py:129-134 | one more receiver is one more single increment |
| Calculate.TotalReward | main.py:141 | the summing loop computes the total of the reward map |
| Calculate.WinRate | main.py:148 | 0 when the total is 0, with no division; otherwise the nearest integer to `100 * rich / total`, ties to even like `round`; 0..100 when `rich <= total`, 100 for all wins, 0 for none |
| Calculate.RoundHalfEven | main.py:148 | the quotient-and-remainder rounding is within half a unit, and even on ties |
| Calculate.RateBounds | main.py:148 | the rounded rate of `rich <= total` lies in 0..100, with 100 and 0 at the extremes |
| Calculate.MulMono | main.py:148 | proof helper (arithmetic): multiplication by a natural number is monotone, as Calculate.RateBounds needs |
| Calculate.Stats | main.py:145-149 | one entry per key of `participant_total`, each with `0 <= rich <= total` and a rate in 0..100 |
| Calculate.StatsFromHistory | main.py:93-148 | a crime has a statistics entry exactly when it has a decided report, and the entry holds the decided count, the won count and the rate between them |
| Calculate.Report | main.py:84-148 | the command yields the processed rewards; a total that is the sum of the per-participant rewards and equals the per-message payout; and the statistics, one entry per crime with a decided report, holding its decided and won counts and their rate |
| Scenarios.ConbiniToken | main.py:95-100 | `犯罪種類[コンビニ]` yields the token `コンビニ` |
| Scenarios.ConbiniName | main.py:40-47 | `コンビニ` resolves to `コンビニ強盗` |
| Scenarios.FoldOne | main.py:93 | a one-message history is one step |
| Scenarios.ConbiniCrime | main.py:94-103 | a convenience-store report resolves whatever its reactions |
| Scenarios.ConbiniAbsorbed | main.py:105-134 | such a report is absorbed with its own marks and approvers |
| Scenarios.FirstBump | main.py:124 | the first increment of a fresh `defaultdict` creates the key with that amount |
| Scenarios.ReactionsOf | main.py:110-120 | appending one ✅ reaction keeps the marks and makes its non-bot users the receivers |
| Scenarios.NoApprovalNoApprovers | main.py:116-120 | reactions with no ✅ collect nobody |
| Scenarios.ConbiniPayment | main.py:130-131 | a clean win on a convenience-store robbery pays 200000 |
| Scenarios.WinFold | main.py:93-134 | the four accumulators after the won report approved by A |
| Scenarios.LossFold | main.py:93-134 | the four accumulators after the lost report approved by A |
| Scenarios.WinScenario | main.py:93-149 | a won convenience-store report approved by A pays A 200000 once and reports 100% (1 of 1) |
| Scenarios.LossScenario | main.py:93-149 | the same report marked lost pays A `FAIL_PAYMENT` and reports 0% (0 of 1) |
| Scenarios.StatsOfSingleCrime | main.py:145-149 | with a single counted crime, the statistics block has exactly that entry |
| Scenarios.ContestedScenario | main.py:123-134 | a report with both marks pays its human approver `FAIL_PAYMENT`, not the bot, and leaves the statistics untouched |
| Scenarios.HiraganaSpelling | main.py:40-47 | a report spelt in hiragana resolves to the same crime as the katakana alias |
| Scenarios.HiraganaToken | main.py:95-100 | `犯罪種類[こんびに強盗]` yields the token `こんびに強盗` |
| Scenarios.SearchSkipsUnclosedMarker | main.py:95 | a marker whose `[` is not closed on its line is skipped, and the next marker's token is returned |
| Scenarios.UnclosedFirstMarker | main.py:95 | the unclosed first marker contributes no match, so the search resumes at the next marker |
| Scenarios.UnclosedMarkerSkipped | main.py:95-97 | `犯罪種類[abc` has no match, and a message with that text is skipped |

## Left out

- Discord setup, the intents, `bot.run` and the `DISCORD_TOKEN` lookup (main.py:12-18, main.py:155): these are platform plumbing. The model has no bot object.
- Looking up the source channel and its error reply (main.py:75-81): network I/O.
- The history fetch with its 200-message limit and its start time (main.py:90-91): the history is an input sequence of messages, already fetched.
- The async `reaction.users()` iteration (main.py:118): each reaction carries its list of users as a value.
- `str(reaction.emoji)` (main.py:111): a reaction's emoji is given as its string.
- Date parsing, JST, `timedelta` and UTC conversion, and the date-format error reply (main.py:62-73, main.py:90): library datetime behaviour.
- Every `ctx.send`/`output_channel.send` and the formatting of the report lines (main.py:137-149): the report is modelled as its numbers (`Calculate.Report`).
- The output order: dict insertion order for rewards and `sorted` over crime names (main.py:138, main.py:145). This is presentation only; the model uses maps, which have no order.
- `save_data` and its JSON and CSV files (main.py:50-57, main.py:152): file I/O through library serializers.
- Calculate.WinRate: computed on exact rationals with Python's ties-to-even rounding, not on the floating-point `rich_count / total * 100`. It is therefore not claimed to agree bit for bit with the float result, for example at values where float error moves a value across a .5 tie.
- Kana.KataToHira: `jaconv.kata2hira` is a library call, and the model assumes this code-point shift for it. Its other behaviour, if any, is not modelled.
- Reading `participant_rich[crime]` at main.py:147 inserts a zero entry into the `defaultdict`. The model reads with a default instead (`Tally.Get`), and this insertion happens after the last use of the map.
