# Monty Hall simulation core, in Dafny

This project models the core of a Monte Carlo simulation of the Monty Hall
game (`monty_hall.py`). In each game a prize hides behind one of three doors
(0, 1, 2). The contestant guesses a door. The host then opens a "goat door"
that is neither the prize nor the guess. A contestant who switches moves to
the one door left; one who stays keeps the first guess. A batch of games is
held in parallel sequences indexed by game number, and the driver counts the
games won.

The model, module `MontyHall` in `monty_hall.dfy`:

- `Door` is the subset type of integers 0..2.
- The list comprehensions that pick "the doors other than these" become the
  pure function `OtherDoors`. The per-game decisions become `GoatDoor`,
  `SwitchDoor` and `ContestantDoor`.
- The three loops of the source (`goatdoor`, `switch_guess`, and the win
  tally of `run_monty`) are methods with `while` loops and invariants. Each
  is proved against the per-game functions.
- The host's `random.choice` between two goat doors is an explicit input:
  one coin per game. `false` opens the first of the two other doors in
  increasing order, `true` the second. The coin is consulted only when the
  guess is the prize, as in the source.
- The prize doors and first guesses that `prizedoor(n)` and
  `initial_guess(n)` draw at random are inputs of `RunMonty`: sequences of
  length `n` of doors.
- `zip` stops at the shorter of its two arguments. `GoatDoors` and
  `SwitchGuesses` do the same, so they need no equal-length precondition.
- The source's `switch_guess` does not check that the guess differs from the
  goat door. `SwitchDoor` is total too: when the two coincide it returns the
  lowest door other than the guess, as the comprehension's first element is.

The main results: the host never opens the prize or the guessed door; the
switch door is the unique third door; switching wins a game exactly when the
first guess was wrong and staying wins exactly when it was right; so on the
same games the two strategies win disjoint sets of games whose sizes add up
to the number of games.

## Model

| member | source | states |
|---|---|---|
| MontyHall.OtherDoors | monty_hall.py:29-34 | The doors of [0, 1, 2] other than `a` and `b`: exactly those doors, two of them in increasing order when `a == b`, otherwise exactly one. |
| MontyHall.GoatDoor | monty_hall.py:27-34 | The opened door is neither the prize nor the guess; when the guess is wrong it is determined, as prize, guess and goat door are then the three doors. |
| MontyHall.HostMayOpenEitherOtherDoor | monty_hall.py:27-30 | When the guess is the prize, the host's random choice can open each door other than the prize, and only those. |
| MontyHall.SwitchDoor | monty_hall.py:45-48 | The switch door differs from the guess; when guess and goat door differ it is the unique third door; when they coincide it is the lowest door other than the guess. |
| MontyHall.ContestantDoor | monty_hall.py:60-63 | The final door wins exactly when the first guess was wrong if the contestant switches, and exactly when it was right if the contestant stays. |
| MontyHall.GoatDoors | monty_hall.py:18-36 | One goat door per (prize, guess) pair, in order, up to the shorter input; each is the host's door for that game and avoids both the prize and the guess. |
| MontyHall.SwitchGuesses | monty_hall.py:38-50 | One switch door per (guess, goat door) pair, in order, up to the shorter input; where guess and goat differ it avoids both. |
| MontyHall.CountEqual | monty_hall.py:65-71 | The number of matching positions never exceeds the number of games. |
| MontyHall.CountEqualIsMatchingIndices | monty_hall.py:65-71 | The tally equals the number of indices at which the prize door and the contestant door are equal. |
| MontyHall.TallyCountsWins | monty_hall.py:65-71 | Counting the games whose contestant door is the prize door counts exactly the games the chosen strategy wins. |
| MontyHall.SwitchWinsExactlyWrongGuesses | monty_hall.py:57-71 | The games the switch strategy wins are exactly those whose first guess was not the prize. |
| MontyHall.StayWinsExactlyRightGuesses | monty_hall.py:60-71 | The games the stay strategy wins are exactly those whose first guess was the prize. |
| MontyHall.SwitchAndStayWinsPartitionGames | monty_hall.py:57-71 | On the same games the switch and stay strategies win disjoint sets of games, and their win counts add up to the number of games. |
| MontyHall.RunMonty | monty_hall.py:52-71 | The win count is the number of games whose final door is the prize, at most `n`; with switching it is the number of wrong first guesses, without it the number of right ones. |

## Left out

- `prizedoor` and `initial_guess` (monty_hall.py:4-16) draw uniform random doors with numpy; their results are inputs of `RunMonty`, constrained only to be doors.
- The distribution of `random.choice` and the statistical claim that switching wins about 2/3 of games and staying about 1/3: the choice is an input coin, and probabilities are not modelled. The model states instead the exact, per-game relation between the two strategies.
- The random number generator's sequence of draws: the model gives one coin per game, whether or not the game draws one; any run of the source is matched by some coin sequence.
- The three `print` calls of `run_monty` and the percentage `round(100 * wins / n, 2)` (monty_hall.py:73-76): console output and floating point. With `n = 0` that division fails; `RunMonty` returns 0 wins there.
- The module-level script that runs two batches of 100000 games (monty_hall.py:78-82): a fixed output driver.
- Numpy arrays are modelled as sequences; their element type and conversion from lists play no part in the logic.
