# Tabular reinforcement learning, from dynamic programming to Sarsa(lambda)

This project models the tabular core of the book code *rl_from_starting_to_practicing*:

- **Gridworld planning (chap3).** A 4x4 gridworld, with its uniform-random and greedy policies, iterative policy evaluation, policy iteration and value iteration.
- **Blackjack (chap4 and chap5).**
  - The environment: the hands with their ace rule, the threshold dealer and player, the arena that deals from a shuffled 48-card pool, refills from the discard pile and scores each game, and the game loop.
  - Every-visit Monte-Carlo evaluation of the fixed player (chap4).
  - The Monte-Carlo control player, which learns Q with an epsilon-greedy policy (chap5).
- **Windy grid (chap5).** The Sarsa, Sarsa(lambda) and Q-learning agents, with their table helpers and greedy and epsilon-greedy policies.

The model takes the source's own form. Pure helpers are Dafny functions with lemmas about them. Objects that update their fields are classes whose methods have `modifies` clauses:

- the grid policy;
- a hand;
- the arena;
- the Monte-Carlo player;
- the three agents.

Each loop of the source is a method with loop invariants. Most are proved against a specification function, and lemmas state what the source promises about that function. The game loops are proved against predicates instead: `Recorded` says which hand each decision of an episode was taken on and what it was, and `DealerPlayed` says the dealer bid on every hand but its last. Lemmas then derive the point bounds from these predicates.

Modules:

| module | models |
|---|---|
| `Decimal` | Python's `str()` of an integer. |
| `ArgMax` | The greedy scan shared by every policy. It keeps the running maximum and the list of tied actions, then splits the probability evenly among the ties. |
| `PointUtils` | The blackjack table helpers: `str_key`, `set_dict`, `get_dict`, `greedy_pi`, `epsilon_greedy_pi` and `epsilon_greedy_policy`. |
| `EpsilonGreedy` | The epsilon-greedy distribution and its sampler, over any action type. |
| `IncrementalMean` | The running-mean table that both Monte-Carlo learners fold their samples into. |
| `Gamer` | Cards, points, hands, the threshold policies and the player's state name. |
| `Env` | The chap4 arena and game loop. The chap5 arena runs the same card-handling code, so it reuses these methods. |
| `StateValue` | chap4 `policy_evaluate`. |
| `MonteCarlo` | chap5 `MC_Player`. |
| `Blackjack` | The chap5 `play_game` and `repeat_game`. They differ from chap4 in two ways: the hands are recycled after every game, and each game is fed to `learn_Q`. |
| `WindyUtils` | The windy-grid table helpers and policies. |
| `Agents` | The Sarsa and Q-learning agents. |
| `SarsaLambda` | The Sarsa(lambda) agent. |
| `GridWorld` | chap3. |

chap4's `play_game` does not recycle the hands after a game that reaches the showdown (chap5's version does). `Env.Arena.PlayGame` models this as written: its contract says the hands are kept on that path.

## Model

| member | source | states |
|---|---|---|
| Decimal.IntToString | rl_from_starting_to_practicing/chap5/21point_game/utils.py:15-17 | `str()` of an int is non-empty, starts with '-' exactly when the int is negative, is otherwise made of digits, and never contains the key separator '_' |
| Decimal.NatToStringInjective | rl_from_starting_to_practicing/chap5/21point_game/utils.py:15-17 | distinct naturals have distinct decimal strings |
| Decimal.IntToStringInjective | rl_from_starting_to_practicing/chap5/21point_game/utils.py:15-17 | distinct integers have distinct `str()` strings, so integer parts of keys never collide |
| ArgMax.MaxQ | rl_from_starting_to_practicing/chap5/21point_game/utils.py:51-58 | the scan's `max_q` is an upper bound on every action value and is attained by some action |
| ArgMax.Ties | rl_from_starting_to_practicing/chap5/21point_game/utils.py:51-58 | the collected actions are exactly the actions whose value equals the given value |
| ArgMax.Greedy | rl_from_starting_to_practicing/chap5/21point_game/utils.py:51-58 | `a_max_q` is non-empty; it holds exactly the actions reaching the maximum, and no action is better than any member |
| ArgMax.ScanGreedy | rl_from_starting_to_practicing/chap5/21point_game/utils.py:51-58 | the scan loop that starts from minus infinity ends with the maximum and the tie list, both in action order; on no actions the list is empty |
| ArgMax.TiesAboveMax | rl_from_starting_to_practicing/chap5/21point_game/utils.py:51-58 | no action ties a value above the maximum |
| ArgMax.SumGreedyCounts | rl_from_starting_to_practicing/chap5/21point_game/utils.py:59-61 | summed over any actions, `greedy_pi` adds up to the number of ties among them times 1/n |
| ArgMax.GreedySumsToOne | rl_from_starting_to_practicing/chap5/21point_game/utils.py:46-61 | the greedy probabilities of all actions sum to 1 |
| ArgMax.UniformWhenAllTie | rl_from_starting_to_practicing/chap5/21point_game/utils.py:46-61 | when every action has the same value, all are greedy and each gets 1/len(A) |
| PointUtils.StrKey | rl_from_starting_to_practicing/chap5/21point_game/utils.py:8-18 | the loop that flattens tuples and lists one level and joins the parts with '_' yields the key `Key(args)` |
| PointUtils.SplitJoin | rl_from_starting_to_practicing/chap5/21point_game/utils.py:18 | joining tokens that contain no '_' can be undone by splitting at '_' |
| PointUtils.KeyDeterminesTokens | rl_from_starting_to_practicing/chap5/21point_game/utils.py:8-18 | two keys built from '_'-free parts are equal only when their flattened parts are equal |
| PointUtils.KeyExample | rl_from_starting_to_practicing/chap5/21point_game/utils.py:8-18 | the state tuple (1, 15, False) with action "Bid" gives the key "1_15_False_Bid" |
| PointUtils.SetDict | rl_from_starting_to_practicing/chap5/21point_game/utils.py:20-21 | after `set_dict` the key of the arguments holds the value; every other key keeps its value, and no other key is added |
| PointUtils.GetAfterSet | rl_from_starting_to_practicing/chap5/21point_game/utils.py:20-24 | `get_dict` after `set_dict` reads the stored value under the same key, and the old value or the default otherwise |
| PointUtils.GreedyPi | rl_from_starting_to_practicing/chap5/21point_game/utils.py:46-61 | the probability is 1/(number of ties) for a best action and 0 for a worse one |
| PointUtils.UnseenStateUniform | rl_from_starting_to_practicing/chap5/21point_game/utils.py:23-24 | in a state with no entries in Q, every value reads 0, so `greedy_pi` is uniform |
| PointUtils.EpsilonGreedyPolicy | rl_from_starting_to_practicing/chap5/21point_game/utils.py:71-82 | returns the first action at which the draw minus the running probability sum goes negative; that action is in A; with a draw below 1 and a non-empty A some action is returned |
| EpsilonGreedy.ProbSplit | rl_from_starting_to_practicing/chap5/21point_game/utils.py:63-69 | `epsilon_greedy_pi` is (1 - epsilon) times the greedy probability plus epsilon/m, including for a non-greedy action |
| EpsilonGreedy.SumsToOne | rl_from_starting_to_practicing/chap5/21point_game/utils.py:63-75 | for any epsilon, the epsilon-greedy probabilities of all actions sum to 1 |
| EpsilonGreedy.Pick | rl_from_starting_to_practicing/chap5/21point_game/utils.py:79-82 | the index the subtraction loop stops at is a valid action index |
| EpsilonGreedy.PickIsLeast | rl_from_starting_to_practicing/chap5/21point_game/utils.py:79-82 | the chosen index is the first one whose running sum exceeds the draw |
| EpsilonGreedy.PickTotal | rl_from_starting_to_practicing/chap5/21point_game/utils.py:79-82 | if the total exceeds the draw, the loop returns an action instead of falling through |
| EpsilonGreedy.SamplerTotal | rl_from_starting_to_practicing/chap5/21point_game/utils.py:71-82 | with a non-empty action list and a draw below 1, the sampler always returns an action |
| EpsilonGreedy.Sample | rl_from_starting_to_practicing/chap5/21point_game/utils.py:71-82 | the sampling loop returns the action at the picked index, or None when the loop falls through; with a draw below 1 it returns an action of A |
| IncrementalMean.MeanStepTotal | rl_from_starting_to_practicing/chap5/main.py:27 | the update `q + (r - q)/(n + 1)` gives a running total (count times mean) that grows by exactly r |
| IncrementalMean.MeanStepFirst | rl_from_starting_to_practicing/chap5/main.py:24-27 | the first sample of a key replaces the default 0 with the reward |
| IncrementalMean.MeanStepKeeps | rl_from_starting_to_practicing/chap5/main.py:27 | a sample equal to the current mean leaves it unchanged |
| IncrementalMean.RecordEffect | rl_from_starting_to_practicing/chap5/main.py:24-27 | one update raises the sampled key's count by one and moves its mean; every other key is untouched |
| IncrementalMean.RecordTotal | rl_from_starting_to_practicing/chap5/main.py:24-27 | one update adds the reward to the running total of its own key and of no other |
| IncrementalMean.RecordAllCounts | rl_from_starting_to_practicing/chap5/main.py:23-27 | after a run of samples, each count has grown by the number of samples with that key |
| IncrementalMean.RecordAllSums | rl_from_starting_to_practicing/chap5/main.py:23-27 | after a run of samples, count times mean equals the old total plus the rewards with that key, so the table holds sample means |
| IncrementalMean.RecordAllUntouched | rl_from_starting_to_practicing/chap5/main.py:23-27 | keys no sample lands on keep their mean, their count and their absence |
| IncrementalMean.RecordAllConstant | rl_from_starting_to_practicing/chap5/main.py:23-27 | if every reward is r, the mean of a key that was sampled is r |
| IncrementalMean.RecordAllAppend | rl_from_starting_to_practicing/chap4/main.py:9-15 | recording two runs of samples one after the other is the same as recording their concatenation |
| Gamer.CardValueRange | rl_from_starting_to_practicing/chap4/gamer.py:27-38 | a card is worth 1 to 10 points, and exactly 10 for J, Q and K |
| Gamer.DeckFacts | rl_from_starting_to_practicing/chap4/env.py:13 | the arena's deck has 48 cards, each face four times |
| Gamer.PointsMaximal | rl_from_starting_to_practicing/chap4/gamer.py:40-67 | the points are the best total that counts some aces as 11 and stays at most 21; a bust hand has no ace counted as 11 |
| Gamer.DemotedMeansOver11 | rl_from_starting_to_practicing/chap4/gamer.py:61-63 | an ace is only demoted to 1 when the hand is worth more than 11 |
| Gamer.SoftHandRange | rl_from_starting_to_practicing/chap4/gamer.py:40-67 | a hand holding an ace counted as 11 is worth 11 to 21 |
| Gamer.PointsExamples | rl_from_starting_to_practicing/chap4/gamer.py:40-67 | A K and A A 9 are soft 21s; the empty hand is 0 and not soft |
| Gamer.Gamer.constructor | rl_from_starting_to_practicing/chap4/gamer.py:12-18 | a new gamer holds no cards |
| Gamer.Gamer.ReceiveCards | rl_from_starting_to_practicing/chap4/gamer.py:69-74 | the received cards are appended in order |
| Gamer.Gamer.DischargeCards | rl_from_starting_to_practicing/chap4/gamer.py:76-80 | the hand is emptied |
| Gamer.Gamer.CalcPoints | rl_from_starting_to_practicing/chap4/gamer.py:40-67 | the counting loop and the demotion loop return the points of `Total` and whether an ace is still counted as 11 |
| Gamer.PolicyThresholds | rl_from_starting_to_practicing/chap4/gamer.py:99-128 | `Dealer.policy` bids exactly below 17 points and `Player.policy` exactly below 20; both answer with an action of `action_set`, and a hand the dealer would bid on the player bids on too |
| Gamer.PolicyExamples | rl_from_starting_to_practicing/chap4/gamer.py:99-128 | a soft 17 (A 6) makes the dealer stop, A K makes the player stop, and K 9 makes the player bid |
| Gamer.FirstCardFacts | rl_from_starting_to_practicing/chap4/gamer.py:94-97 | `show_first_card` is 0 for an empty hand and otherwise the first card's value, 1 to 10; later cards do not change it |
| Gamer.GetStateFacts | rl_from_starting_to_practicing/chap4/gamer.py:114-117 | the state holds the dealer's first card value (0 to 10), the player's points and the soft-ace flag; a soft hand is worth 11 to 21; cards the dealer draws after the first leave the state unchanged |
| Gamer.Gamer.GetStateName | rl_from_starting_to_practicing/chap4/gamer.py:114-120 | the name is the key of (dealer's first card, player's points, soft-ace flag) |
| Gamer.StateNameInjective | rl_from_starting_to_practicing/chap4/gamer.py:114-120 | different states get different names |
| Env.Shuffle | rl_from_starting_to_practicing/chap4/env.py:26 | shuffling returns a permutation of the cards |
| Env.RewardCases | rl_from_starting_to_practicing/chap4/env.py:38-46 | the reward is +1, 0 or -1. It is +1 exactly when the player is not bust and beats the dealer or the dealer is bust. It is 0 exactly on equal points with no bust. It is -1 exactly when the player is bust or has fewer points than a dealer who is not bust |
| Env.CountRewardsCover | rl_from_starting_to_practicing/chap4/env.py:148-152 | every game is counted as a loss, a draw or a win |
| Env.TallyTotal | rl_from_starting_to_practicing/chap4/env.py:148-152 | the `results` entries add up to the number of games |
| Env.DrawOne | rl_from_starting_to_practicing/chap4/env.py:98 | one more card raises the hard total by 1 to 10 points, so a hitting hand grows |
| Env.Arena.constructor | rl_from_starting_to_practicing/chap4/env.py:12-20 | the pool holds the whole 48-card deck; the card list, the discard pile and the episode list are empty |
| Env.Arena.LoadCards | rl_from_starting_to_practicing/chap4/env.py:22-29 | the shuffled cards are appended behind the pool and their source list is emptied; no card is lost |
| Env.Arena.GiveReward | rl_from_starting_to_practicing/chap4/env.py:31-48 | returns both point totals, the player's soft-ace flag and the reward of `RewardCases` |
| Env.Arena.Refill | rl_from_starting_to_practicing/chap4/env.py:57-66 | on an empty pool the refill succeeds exactly when more than 20 cards are discarded; the discard pile then becomes the pool; on failure nothing is lost |
| Env.Arena.ServeCard | rl_from_starting_to_practicing/chap4/env.py:50-70 | deals n cards from the front of the pool, refilling when it runs dry. It fails exactly when a refill is needed with 20 or fewer cards discarded, or too few cards exist. The dealt cards are appended to the hand and the arena keeps every card |
| Env.Arena.Discard | rl_from_starting_to_practicing/chap4/env.py:78-81 | one gamer's cards go to the end of the discard pile and the hand is emptied |
| Env.Arena.RecycleCards | rl_from_starting_to_practicing/chap4/env.py:75-81 | the player's then the dealer's cards are appended to the discard pile and both hands are emptied |
| Env.RecordedAt | rl_from_starting_to_practicing/chap4/env.py:92-100 | `Recorded` holds exactly when decision i of the episode fits the first start + i cards of the hand, for every i |
| Env.RecordedDeal | rl_from_starting_to_practicing/chap4/env.py:98 | a card dealt after the last decision does not change the hands earlier decisions were taken on |
| Env.PlayerFinalPoints | rl_from_starting_to_practicing/chap4/env.py:92-100 | a finished threshold-player episode bid on every hand before the last, each under 20 points; the final hand is worth 20 or more, and at most 29 if the player bid at all |
| Env.DealerFinalPoints | rl_from_starting_to_practicing/chap4/env.py:114-121 | a dealer that played its turn holds 17 points or more, and at most 26 if it drew a card |
| Env.Arena.PlayerTurn | rl_from_starting_to_practicing/chap4/env.py:92-100 | the episode is finished. Decision i was taken on the hand with i cards more than at the start. Its name is `get_state_name` of that hand against the dealer's cards, and its action is `Player.policy` of that hand. The hand grows by one card per Bid, keeps its earlier cards and ends at 20 points or more |
| Env.Arena.DealerTurn | rl_from_starting_to_practicing/chap4/env.py:114-121 | `Dealer.policy` said Bid on every hand before each new card and Stop on the last. The earlier cards are kept and the final hand is worth 17 or more |
| Env.Arena.OpenGame | rl_from_starting_to_practicing/chap4/env.py:88-100 | two cards to the player, then two to the dealer, then the player's turn. That turn's decisions are recorded as in `PlayerTurn`, starting from the player's two new cards and with the dealer's two cards in view. The arena neither gains nor loses a card |
| Env.Arena.Settle | rl_from_starting_to_practicing/chap4/env.py:102-141 | on a bust the player's and then the dealer's hand end the discard pile, both hands are empty and the dealer drew nothing. Otherwise the dealer played its turn to 17 or more and both hands stay. The reward is `Reward` of the player's and the dealer's final points, and the game is recorded |
| Env.Arena.PlayGame | rl_from_starting_to_practicing/chap4/env.py:83-141 | records one finished episode. Its decisions are the player's turn on the ghost final hand, with the dealer's opening cards in view. The reward is `Reward` on the final player's and dealer's hands. On a bust the dealer drew nothing and both hands end the discard pile; otherwise the dealer played its turn to 17 or more and both hands are kept. No card is lost |
| Env.Arena.RepeatGame | rl_from_starting_to_practicing/chap4/env.py:143-152 | `episodes` is reset and then holds num finished games. `results` counts the losses, draws and wins among them and adds up to num. No card is lost |
| StateValue.EvaluateGame | rl_from_starting_to_practicing/chap4/main.py:10-15 | the inner loop records every state of one game with that game's reward |
| StateValue.PolicyEvaluate | rl_from_starting_to_practicing/chap4/main.py:8-15 | the two loops fold every recorded game into V and Ns in order |
| StateValue.EvaluateCounts | rl_from_starting_to_practicing/chap4/main.py:8-15 | Ns of a state grows by the number of times the state occurs across all games |
| StateValue.EvaluateMean | rl_from_starting_to_practicing/chap4/main.py:8-15 | V(s) times Ns(s) grows by the sum of the rewards of every occurrence of s, so V is the every-visit mean return |
| StateValue.EvaluateUnvisited | rl_from_starting_to_practicing/chap4/main.py:8-15 | a state that occurs in no game keeps its value and gains no entry |
| StateValue.EvaluateConstant | rl_from_starting_to_practicing/chap4/main.py:8-15 | if every game has reward r, every visited state (new, or already at r) ends at value r |
| MonteCarlo.LearnVisits | rl_from_starting_to_practicing/chap5/main.py:19-28 | Nsa of a pair grows by the number of times the episode visits it, and unvisited pairs keep their Q |
| MonteCarlo.LearnMean | rl_from_starting_to_practicing/chap5/main.py:19-28 | Q times Nsa of a pair grows by the reward once per visit |
| MonteCarlo.LearnConstant | rl_from_starting_to_practicing/chap5/main.py:19-28 | a visited pair that was new or already at the reward ends at the reward |
| MonteCarlo.PairKeyOfState | rl_from_starting_to_practicing/chap5/21point_game/utils.py:8-18 | the key of a state name and an action is `str_key` of the state tuple and the action, and also of the four values one by one |
| PointUtils.KeyOfKey | rl_from_starting_to_practicing/chap5/21point_game/utils.py:8-18 | `str_key(str_key(args), a)` is `str_key(args, a)` when args has some part |
| PointUtils.GroupSpreads | rl_from_starting_to_practicing/chap5/21point_game/utils.py:14-15 | a tuple argument gives the same tokens as its members passed one by one |
| MonteCarlo.ChoiceIsAction | rl_from_starting_to_practicing/chap5/main.py:38-51 | the policy always answers with Bid or Stop, and never bids at 21 points or more |
| MonteCarlo.MCPlayer.constructor | rl_from_starting_to_practicing/chap5/main.py:12-17 | an empty hand, empty Q and Nsa, and no learning calls yet |
| MonteCarlo.MCPlayer.LearnQ | rl_from_starting_to_practicing/chap5/main.py:19-28 | the loop leaves Q and Nsa equal to the episode folded into them, and counts one more learning call |
| MonteCarlo.MCPlayer.ResetMemory | rl_from_starting_to_practicing/chap5/main.py:30-36 | Q and Nsa are cleared and the counter is zeroed |
| MonteCarlo.MCPlayer.Policy | rl_from_starting_to_practicing/chap5/main.py:38-51 | Stop at 21 or more, Bid below 12, otherwise the epsilon-greedy sample for the player's state; always an action of `action_set` |
| Blackjack.LearnGamesCounts | rl_from_starting_to_practicing/chap5/21point_game/blackjack.py:276-280 | after learning from all games, Nsa of a pair is the old count plus its visits across the games |
| Blackjack.LearnGamesMeans | rl_from_starting_to_practicing/chap5/21point_game/blackjack.py:276-280 | after learning from all games, count times Q of a pair is the old total plus the rewards of its visits |
| Blackjack.MCFinalPoints | rl_from_starting_to_practicing/chap5/21point_game/blackjack.py:217-225 | a finished Monte-Carlo episode bid on every hand before the last, each under 21 points; the final hand is worth 12 or more, and at most 30 if the player bid at all |
| Blackjack.PlayerTurn | rl_from_starting_to_practicing/chap5/21point_game/blackjack.py:217-225 | the episode is finished. Decision i was taken on the hand with i cards more than at the start. Its name is `get_state_name` of that hand, and its action is `MC_Player.policy`'s move on that hand with Q and the random value u(i). The hand grows by one card per Bid and keeps its earlier cards; no card is lost |
| Blackjack.OpenGame | rl_from_starting_to_practicing/chap5/21point_game/blackjack.py:213-225 | two cards to the player and two to the dealer, with their earlier cards kept, then the player's turn, recorded as in `PlayerTurn` from the player's two new cards; no card is lost |
| Blackjack.Settle | rl_from_starting_to_practicing/chap5/21point_game/blackjack.py:227-267 | unless the player is bust the dealer plays its turn to 17 or more; on a bust it draws nothing. The reward is `Reward` on the two final hands, the game is recorded, and the player's and then the dealer's final hand end the discard pile |
| Blackjack.PlayGame | rl_from_starting_to_practicing/chap5/21point_game/blackjack.py:208-267 | records one finished episode. Its decisions are the player's turn on the ghost final hand, with the dealer's opening cards in view. The reward is `Reward` on the final hands, which end the discard pile in that order. The dealer played its turn to 17 or more unless the player was bust, and drew nothing if the player was. Every card is back in the pool or the pile |
| Blackjack.PlayAndLearn | rl_from_starting_to_practicing/chap5/21point_game/blackjack.py:277-280 | plays one game and has the player learn from it. The learned tables remain the fold of all recorded games |
| Blackjack.RepeatGame | rl_from_starting_to_practicing/chap5/21point_game/blackjack.py:269-280 | `episodes` holds num finished games and `results` tallies them. The player's tables are the fold of all of them, and the learning counter grew by num |
| WindyUtils.StrKeyInjective | rl_from_starting_to_practicing/chap5/windy_grid/utils.py:80-83 | two (state, action) keys are equal only for the same state and action |
| WindyUtils.SetDict | rl_from_starting_to_practicing/chap5/windy_grid/utils.py:20-21 | the pair's key is added and reads back the stored value |
| WindyUtils.SetDictFrame | rl_from_starting_to_practicing/chap5/windy_grid/utils.py:20-21 | every other key reads as before |
| WindyUtils.GetAfterSetOther | rl_from_starting_to_practicing/chap5/windy_grid/utils.py:20-24 | writing one pair does not change what another pair reads |
| WindyUtils.Sample | rl_from_starting_to_practicing/chap5/windy_grid/utils.py:26-27 | `random.choice` picks an action of A |
| WindyUtils.GreedyAction | rl_from_starting_to_practicing/chap5/windy_grid/utils.py:29-38 | the greedy choice is an action of A |
| WindyUtils.GreedyActionIsMax | rl_from_starting_to_practicing/chap5/windy_grid/utils.py:29-38 | the chosen action has the largest Q value in the state |
| WindyUtils.GreedyPolicy | rl_from_starting_to_practicing/chap5/windy_grid/utils.py:29-38 | the scan loop picks among the tied best actions, as `GreedyAction` does |
| WindyUtils.GreedyCandidates | rl_from_starting_to_practicing/chap5/windy_grid/utils.py:30-37 | the candidates are exactly the best actions; in a state where all Q values are equal, every action is a candidate |
| WindyUtils.EpsilonGreedyAction | rl_from_starting_to_practicing/chap5/windy_grid/utils.py:40-45 | the epsilon-greedy choice is an action of A |
| WindyUtils.ExploitIsMax | rl_from_starting_to_practicing/chap5/windy_grid/utils.py:40-45 | with a draw of at least epsilon, the choice has the largest Q value |
| WindyUtils.EpsilonGreedyPolicy | rl_from_starting_to_practicing/chap5/windy_grid/utils.py:40-45 | explores below epsilon, otherwise takes the greedy policy's choice |
| WindyUtils.ZeroEpsilonIsGreedy | rl_from_starting_to_practicing/chap5/windy_grid/utils.py:40-45 | with epsilon 0 the policy is the greedy policy |
| WindyUtils.SameReadingsSameAction | rl_from_starting_to_practicing/chap5/windy_grid/utils.py:29-45 | two tables that read the same everywhere lead to the same choice |
| WindyUtils.XY2State | rl_from_starting_to_practicing/chap5/windy_grid/utils.py:77-78 | a state name contains no '_', so it can be a key part |
| WindyUtils.XY2StateInjective | rl_from_starting_to_practicing/chap5/windy_grid/utils.py:77-78 | cells of the 12-column grid have distinct names |
| Agents.TdUpdateFrame | rl_from_starting_to_practicing/chap5/windy_grid/agents.py:30-34 | Q(s0, a0) moves alpha of the way to r1 + gamma Q(s1, a1); no other entry changes |
| Agents.TdUpdateAlphaZero | rl_from_starting_to_practicing/chap5/windy_grid/agents.py:33 | with alpha 0 the table reads as before |
| Agents.TdUpdateAlphaOne | rl_from_starting_to_practicing/chap5/windy_grid/agents.py:32-33 | with alpha 1, Q(s0, a0) becomes the TD target |
| Agents.TdUpdateSameReadings | rl_from_starting_to_practicing/chap5/windy_grid/agents.py:30-34 | the update depends only on what the table reads |
| Agents.EpisodeLengthUnique | rl_from_starting_to_practicing/chap5/windy_grid/agents.py:24-37 | the step count of an episode is determined by the outcomes |
| Agents.SarsaAgent.constructor | rl_from_starting_to_practicing/chap5/windy_grid/agents.py:9-11 | Q starts empty over the given action list |
| Agents.SarsaAgent.LearningMethod | rl_from_starting_to_practicing/chap5/windy_grid/agents.py:16-42 | the episode loop performs the on-policy Sarsa update at each step until the done step. It returns that step's number |
| Agents.QLearningTargetIsMax | rl_from_starting_to_practicing/chap5/windy_grid/agents.py:114-120 | the Q-learning target uses the largest Q value of the next state |
| Agents.QAgent.constructor | rl_from_starting_to_practicing/chap5/windy_grid/agents.py:95-97 | Q starts empty over the given action list |
| Agents.QAgent.LearningMethod | rl_from_starting_to_practicing/chap5/windy_grid/agents.py:102-123 | at each step it acts epsilon-greedily and updates towards the greedy next action. The table is that of the off-policy recursion, and the returned step count is the episode's length |
| SarsaLambda.PairsCount | rl_from_starting_to_practicing/chap5/windy_grid/agents.py:76-77 | the sweep visits each (s, a) as often as s occurs in S times as often as a occurs in A |
| SarsaLambda.SweepUntouched | rl_from_starting_to_practicing/chap5/windy_grid/agents.py:76-83 | entries the sweep does not visit are unchanged |
| SarsaLambda.SweepOnce | rl_from_starting_to_practicing/chap5/windy_grid/agents.py:78-83 | a pair visited once gains alpha delta e and has its trace decayed by gamma lambda |
| SarsaLambda.SweepPairOnce | rl_from_starting_to_practicing/chap5/windy_grid/agents.py:76-83 | with no duplicates in S and A, every pair of S x A is updated exactly once |
| SarsaLambda.SweepEffect | rl_from_starting_to_practicing/chap5/windy_grid/agents.py:76-83 | the sweep updates every pair of S x A once and leaves every other key unchanged |
| SarsaLambda.ZeroTraceKeepsQ | rl_from_starting_to_practicing/chap5/windy_grid/agents.py:80 | a pair with no trace keeps its Q |
| SarsaLambda.LambdaZeroPair | rl_from_starting_to_practicing/chap5/windy_grid/agents.py:68-83 | with lambda 0 and clear traces, a step changes the pairs of S x A exactly as the Sarsa update does, and clears the traces again |
| SarsaLambda.LambdaZeroOther | rl_from_starting_to_practicing/chap5/windy_grid/agents.py:68-83 | with lambda 0, keys outside S x A read as after the Sarsa update |
| SarsaLambda.LambdaZeroStep | rl_from_starting_to_practicing/chap5/windy_grid/agents.py:60-83 | with lambda 0, one step reads as the Sarsa step and keeps the traces clear |
| SarsaLambda.LambdaZeroIsSarsa | rl_from_starting_to_practicing/chap5/windy_grid/agents.py:53-91 | from clear traces, the rest of a lambda-0 episode reads as the rest of the Sarsa episode |
| SarsaLambda.LambdaZeroEpisode | rl_from_starting_to_practicing/chap5/windy_grid/agents.py:53-91 | Sarsa(0) and Sarsa learn the same table over a whole episode |
| SarsaLambda.SarsaLambdaAgent.constructor | rl_from_starting_to_practicing/chap5/windy_grid/agents.py:46-48 | Q starts empty over the given states and actions |
| SarsaLambda.SarsaLambdaAgent.SweepAll | rl_from_starting_to_practicing/chap5/windy_grid/agents.py:76-83 | the nested loops over S and A compute the sweep |
| SarsaLambda.SarsaLambdaAgent.LearningMethod | rl_from_starting_to_practicing/chap5/windy_grid/agents.py:53-91 | starting from empty traces, each step bumps the trace of the pair just left and sweeps all pairs. The table is that of the Sarsa(lambda) recursion, and the step count is the episode's length |
| GridWorld.EnvIsGridMove | rl_from_starting_to_practicing/chap3/main.py:13-42 | `env` moves as on a 4x4 board: a move off the edge or from a terminal corner stays put. The reward is 0 in a terminal state and -1 elsewhere, and `is_end` holds exactly in the terminals |
| GridWorld.OneSuccessor | rl_from_starting_to_practicing/chap3/main.py:45-47 | for each state and action exactly one successor has P = 1 |
| GridWorld.NextSumIsLookahead | rl_from_starting_to_practicing/chap3/main.py:83-84 | the sum over successors of P times V is the value of the one successor |
| GridWorld.ValueSweepIsMax | rl_from_starting_to_practicing/chap3/main.py:157-162 | each new value is the largest action value, attained by some action |
| GridWorld.UniformRowSumsToOne | rl_from_starting_to_practicing/chap3/main.py:65 | a uniform row sums to 1 |
| GridWorld.GreedyRowSumsToOne | rl_from_starting_to_practicing/chap3/main.py:127-138 | every greedy row is a distribution: the `max_cnt` shares sum to 1 |
| GridWorld.GreedyRowSupport | rl_from_starting_to_practicing/chap3/main.py:129-136 | an action gets positive probability exactly when its q value is the largest |
| GridWorld.InitialGreedyIsUniform | rl_from_starting_to_practicing/chap3/main.py:56-60 | on the initial zero values, the greedy policy is the uniform one |
| GridWorld.TerminalSweep | rl_from_starting_to_practicing/chap3/main.py:72-86 | under a policy whose rows sum to 1, a sweep keeps the terminal corners at 0 |
| GridWorld.TerminalValueSweep | rl_from_starting_to_practicing/chap3/main.py:155-163 | a value-iteration sweep keeps the terminal corners at 0 |
| GridWorld.EvaluateKeepsTerminals | rl_from_starting_to_practicing/chap3/main.py:68-70 | any number of evaluation sweeps from terminals at 0 keeps them at 0 |
| GridWorld.ValueIterationKeepsTerminals | rl_from_starting_to_practicing/chap3/main.py:150-163 | value iteration keeps the terminal corners at 0 |
| GridWorld.FirstSweep | rl_from_starting_to_practicing/chap3/main.py:72-86 | with gamma 1 and the uniform policy, the first sweep from zeros gives 0 in the terminals and -1 everywhere else |
| GridWorld.NextValueSum | rl_from_starting_to_practicing/chap3/main.py:81-84 | the loop over all 16 successors yields the value of the one successor |
| GridWorld.ActionValue | rl_from_starting_to_practicing/chap3/main.py:120-123 | q(s, a) is R(s, a) plus gamma times the successor's value |
| GridWorld.ExpectedValue | rl_from_starting_to_practicing/chap3/main.py:78-85 | the loop over actions accumulates the Bellman expectation |
| GridWorld.BestValue | rl_from_starting_to_practicing/chap3/main.py:157-162 | the loop's running maximum is the largest action value |
| GridWorld.MarkTies | rl_from_starting_to_practicing/chap3/main.py:130-136 | marks 1.0 exactly on the actions reaching the maximum, and counts them |
| GridWorld.DivideMarks | rl_from_starting_to_practicing/chap3/main.py:137 | dividing each mark by `max_cnt` gives the greedy probabilities |
| GridWorld.GreedyRowFrom | rl_from_starting_to_practicing/chap3/main.py:128-138 | a state's row computed from its q values is the greedy row |
| GridWorld.QRow | rl_from_starting_to_practicing/chap3/main.py:118-124 | the q values of one state, in action order |
| GridWorld.QTable | rl_from_starting_to_practicing/chap3/main.py:116-124 | the q table of all 16 states |
| GridWorld.GreedyRows | rl_from_starting_to_practicing/chap3/main.py:127-138 | the loop builds the greedy policy row by row |
| GridWorld.GridPolicy.constructor | rl_from_starting_to_practicing/chap3/main.py:56-60 | V starts at 16 zeros and the policy is computed from it (uniform, or greedy on zeros) |
| GridWorld.GridPolicy.UpdatePolicy | rl_from_starting_to_practicing/chap3/main.py:62-66 | the policy becomes the uniform policy, or the greedy one for the current V; V is unchanged |
| GridWorld.GridPolicy.UpdateUniform | rl_from_starting_to_practicing/chap3/main.py:62-66 | the uniform `update_policy` sets every row to 1/4 |
| GridWorld.GridPolicy.UpdateGreedy | rl_from_starting_to_practicing/chap3/main.py:109-138 | the greedy `update_policy` sets the greedy policy for the current V |
| GridWorld.GridPolicy.UpdateValue | rl_from_starting_to_practicing/chap3/main.py:72-86 | V becomes one Bellman sweep of the old V, computed from a copy |
| GridWorld.GridPolicy.PolicyEvaluate | rl_from_starting_to_practicing/chap3/main.py:68-70 | V becomes N sweeps of the old V under a fixed policy |
| GridWorld.GridPolicy.PolicyIterate | rl_from_starting_to_practicing/chap3/main.py:140-148 | N rounds of evaluating eval_N times and then improving greedily give the result of `PolicyIteration` |
| GridWorld.GridPolicy.ImproveOnce | rl_from_starting_to_practicing/chap3/main.py:147-148 | one round evaluates and then sets the greedy policy |
| GridWorld.GridPolicy.ValueIterate | rl_from_starting_to_practicing/chap3/main.py:150-163 | V becomes N value-iteration sweeps of the old V; the policy is unchanged |
| GridWorld.GridPolicy.BestValues | rl_from_starting_to_practicing/chap3/main.py:155-163 | one sweep from a copy of V gives the value sweep |

## Left out

- The gym environment, the base `core.Agent` and `env.reset` are not part of this model. The same holds for `act`, `perform_policy` and the experience memory. What `act` reports at each step is given as a list of outcomes, and the random draws are given as parameters.
- `learning_method` also returns `total_reward`, which comes from `core.Agent.act`; only `time_in_episode` is modelled.
- The `while not is_done` loop of the agents runs until the environment says done. The model takes a finite list of outcomes and stops where it ends.
- `lambda_` defaults to `None` in the Sarsa(lambda) agent, where `gamma * lambda_` would raise. The model takes lambda as a real.
- `MC_Player.policy` without an epsilon derives one from `log10` of the learning count. Logarithms are not modelled, so epsilon is a parameter.
- Floating point: all arithmetic is on exact reals. Ties in the greedy scans are exact equalities, and the epsilon-greedy sampler's fall-through to `None` only happens for draws of 1 or more.
- `value_iterate` starts its maximum from minus infinity; the model starts from the first action's value, which gives the same maximum over the four actions.
- `random.shuffle`, `random.random` and `random.choice` are not modelled; the model takes their results as parameters.
- Env.Shuffle: only says the result is a permutation of its input, not which one.
- `Queue(maxsize=52)` is a sequence. The arena never holds more than its 48 cards, so the bound never blocks.
- `recycle_cards(*players)` is modelled for the two distinct gamers it is always called with, player first.
- The `assert` in `serve_card` that more than 20 cards are discarded becomes a failure result: `ok == false`, or `None` from the game methods.
- Env.Arena.ServeCard: after a refill from the discard pile, the contract says which hand the cards go to and that none is lost. It does not say which cards are dealt, because the shuffle order is not modelled.
- Cards are a datatype, not the strings 'A', '2'…'9', 'J', 'Q', 'K'.
- `calc_points` has a branch for `cards is None`; it is not modelled, because a hand is always a list.
- Display only, so not modelled:
  - `display`, `_info`, `cards_info`;
  - the game statistics printed by `repeat_game`;
  - `display_value`, `display_policy`;
  - `draw_policy`;
  - the name and role fields.
- Both `play_game`s are split in two, `OpenGame` (the deal and the player's loop) and `Settle` (the rest), with `PlayGame` calling one after the other. The steps and their order are those of the source.
- chap5's `Arena.__init__`, `load_cards`, `give_reward`, `serve_card` and `recycle_cards` repeat chap4's code line for line. They are modelled once, in `Env.Arena`.
- `uniform_random_policy` and its subclass `greedy_policy` are one class, `GridPolicy`, whose `greedy` flag selects the `update_policy` in force.
- The MDP tuple handed to the grid policies is fixed to the grid's S, A, R and P. `P` returns a boolean that multiplies a value; the model reads it as 1 or 0.
- An illegal state or action makes `env` raise; the `State` and `Action` types rule both out.
- The first, variadic `str_key` of the windy utils is replaced by the second, two-argument definition later in the same file. Only the second is modelled.
- `chap4/utils.py`, the windy-grid and cliff-walk environments, and everything in chap6 are not part of this model.
- chap4's `get_state_name` and chap4's `policy_evaluate` call the `str_key` and table helpers of `chap4/utils.py`, which is not part of this model. The model uses those of `chap5/21point_game/utils.py` (`PointUtils.Key`, `GetDict`, `SetDict`) in their place, so chap4's state names and table keys are assumed to be built the same way.
