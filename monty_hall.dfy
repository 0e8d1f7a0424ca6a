/**
 * A model of the deterministic core of a Monte Carlo simulation of the
 * Monty Hall game: the host's rule for opening a goat door, the contestant's
 * switch strategy, and the tally of wins over a batch of games.
 *
 * Doors are the integers 0, 1 and 2. The games of a batch are held in
 * parallel sequences indexed by game number. The host's random pick between
 * two goat doors is an explicit input: one coin per game.
 */
module MontyHall {

  /** A door of the game. */
  type Door = d: int | 0 <= d < 3

  function Min(a: nat, b: nat): (m: nat)
    ensures m <= a && m <= b && (m == a || m == b)
  {
    if a <= b then a else b
  }

  /**
   * The doors 0, 1, 2, in that order, that are neither `a` nor `b`: two doors
   * when `a` and `b` coincide, otherwise exactly one.
   */
  function OtherDoors(a: Door, b: Door): (r: seq<Door>)
    ensures forall d: Door :: d in r <==> d != a && d != b
    ensures |r| == if a == b then 2 else 1
    ensures |r| == 2 ==> r[0] < r[1]
  {
    (if 0 != a && 0 != b then [0] else [])
    + (if 1 != a && 1 != b then [1] else [])
    + (if 2 != a && 2 != b then [2] else [])
  }

  /**
   * The door the host opens in one game. When the guess is the prize the
   * host may open either of the two other doors and `coin` picks which;
   * otherwise exactly one door is neither the prize nor the guess.
   */
  function GoatDoor(prize: Door, guess: Door, coin: bool): (g: Door)
    ensures g != prize && g != guess
    ensures prize != guess ==> {prize, guess, g} == {0, 1, 2}
  {
    if prize == guess then
      var others := OtherDoors(prize, prize);
      others[if coin then 1 else 0]
    else
      OtherDoors(prize, guess)[0]
  }

  /**
   * When the guess is the prize, the coin ranges over exactly the two doors
   * other than the prize: the host can open each of them, and no other.
   */
  lemma HostMayOpenEitherOtherDoor(prize: Door, d: Door)
    ensures (exists coin :: GoatDoor(prize, prize, coin) == d) <==> d != prize
  {
    if d != prize {
      var others := OtherDoors(prize, prize);
      assert d in others;
      if others[0] == d {
        assert GoatDoor(prize, prize, false) == d;
      } else {
        assert GoatDoor(prize, prize, true) == d;
      }
    }
  }

  /**
   * The door a contestant switches to: the first door that is neither the
   * guess nor the opened goat door. When those two differ it is the one
   * door left; the source does not guard against them being equal, and then
   * it is the lowest door other than the guess.
   */
  function SwitchDoor(guess: Door, goat: Door): (s: Door)
    ensures s != guess
    ensures guess != goat ==> s != goat && {guess, goat, s} == {0, 1, 2}
    ensures guess == goat ==> s == if guess == 0 then 1 else 0
  {
    OtherDoors(guess, goat)[0]
  }

  /**
   * The door the contestant ends with in one game. Switching wins exactly
   * when the first guess was wrong; staying wins exactly when it was right.
   */
  function ContestantDoor(prize: Door, guess: Door, coin: bool, switch: bool): (d: Door)
    ensures switch ==> (d == prize <==> guess != prize)
    ensures !switch ==> (d == prize <==> guess == prize)
  {
    if switch then SwitchDoor(guess, GoatDoor(prize, guess, coin)) else guess
  }

  /**
   * The host's choice for every game, pairing prizes and guesses as `zip`
   * does (up to the shorter of the two).
   */
  method GoatDoors(prizes: seq<Door>, guesses: seq<Door>, coins: seq<bool>) returns (goats: seq<Door>)
    requires |coins| >= Min(|prizes|, |guesses|)
    ensures |goats| == Min(|prizes|, |guesses|)
    ensures forall i :: 0 <= i < |goats| ==> goats[i] == GoatDoor(prizes[i], guesses[i], coins[i])
    ensures forall i :: 0 <= i < |goats| ==> goats[i] != prizes[i] && goats[i] != guesses[i]
  {
    var n := Min(|prizes|, |guesses|);
    goats := [];
    var i := 0;
    while i < n
      invariant 0 <= i <= n
      invariant |goats| == i
      invariant forall j :: 0 <= j < i ==> goats[j] == GoatDoor(prizes[j], guesses[j], coins[j])
    {
      var prize, guess := prizes[i], guesses[i];
      if prize == guess {
        var others := OtherDoors(prize, prize);
        goats := goats + [others[if coins[i] then 1 else 0]];
      } else {
        var other := OtherDoors(prize, guess);
        goats := goats + [other[0]];
      }
      i := i + 1;
    }
  }

  /**
   * The door each contestant switches to, pairing guesses and goat doors as
   * `zip` does (up to the shorter of the two).
   */
  method SwitchGuesses(guesses: seq<Door>, goats: seq<Door>) returns (switches: seq<Door>)
    ensures |switches| == Min(|guesses|, |goats|)
    ensures forall i :: 0 <= i < |switches| ==> switches[i] == SwitchDoor(guesses[i], goats[i])
    ensures forall i :: 0 <= i < |switches| && guesses[i] != goats[i] ==>
      switches[i] != guesses[i] && switches[i] != goats[i]
  {
    var n := Min(|guesses|, |goats|);
    switches := [];
    var i := 0;
    while i < n
      invariant 0 <= i <= n
      invariant |switches| == i
      invariant forall j :: 0 <= j < i ==> switches[j] == SwitchDoor(guesses[j], goats[j])
    {
      var switchDoor := OtherDoors(guesses[i], goats[i]);
      switches := switches + [switchDoor[0]];
      i := i + 1;
    }
  }

  /** The number of positions below `k` at which `a` and `b` hold the same door. */
  function CountEqual(a: seq<Door>, b: seq<Door>, k: nat): (c: nat)
    requires |a| == |b| && k <= |a|
    ensures c <= k
  {
    if k == 0 then 0
    else CountEqual(a, b, k - 1) + if a[k - 1] == b[k - 1] then 1 else 0
  }

  /** The positions below `k` at which `a` and `b` hold the same door. */
  ghost function MatchingIndices(a: seq<Door>, b: seq<Door>, k: nat): set<int>
    requires |a| == |b| && k <= |a|
  {
    set i | 0 <= i < k && a[i] == b[i]
  }

  /** The count is the number of matching positions. */
  lemma {:induction false} CountEqualIsMatchingIndices(a: seq<Door>, b: seq<Door>, k: nat)
    requires |a| == |b| && k <= |a|
    ensures CountEqual(a, b, k) == |MatchingIndices(a, b, k)|
  {
    if k > 0 {
      CountEqualIsMatchingIndices(a, b, k - 1);
      if a[k - 1] == b[k - 1] {
        assert MatchingIndices(a, b, k) == MatchingIndices(a, b, k - 1) + {k - 1};
      } else {
        assert MatchingIndices(a, b, k) == MatchingIndices(a, b, k - 1);
      }
    }
  }

  /** The indices below `n`. */
  ghost function IndexRange(n: nat): (r: set<int>)
    ensures forall i :: i in r <==> 0 <= i < n
    ensures |r| == n
  {
    if n == 0 then {} else IndexRange(n - 1) + {n - 1}
  }

  /** The games a contestant with the given strategy wins. */
  ghost function Wins(prizes: seq<Door>, guesses: seq<Door>, coins: seq<bool>, switch: bool): set<int>
    requires |prizes| == |guesses| == |coins|
  {
    set i | 0 <= i < |prizes| && prizes[i] == ContestantDoor(prizes[i], guesses[i], coins[i], switch)
  }

  /**
   * Played on the same games, the switch strategy wins exactly the games the
   * stay strategy loses: the two win counts add up to the number of games.
   */
  lemma SwitchAndStayWinsPartitionGames(prizes: seq<Door>, guesses: seq<Door>, coins: seq<bool>)
    requires |prizes| == |guesses| == |coins|
    ensures Wins(prizes, guesses, coins, true) !! Wins(prizes, guesses, coins, false)
    ensures |Wins(prizes, guesses, coins, true)| + |Wins(prizes, guesses, coins, false)| == |prizes|
  {
    var n := |prizes|;
    var switchWins, stayWins := Wins(prizes, guesses, coins, true), Wins(prizes, guesses, coins, false);
    assert switchWins + stayWins == IndexRange(n);
  }

  /**
   * Counting the games whose final door is the prize counts the games the
   * strategy wins.
   */
  lemma TallyCountsWins(prizes: seq<Door>, guesses: seq<Door>, coins: seq<bool>, switch: bool, finals: seq<Door>)
    requires |prizes| == |guesses| == |coins| == |finals|
    requires forall i :: 0 <= i < |finals| ==> finals[i] == ContestantDoor(prizes[i], guesses[i], coins[i], switch)
    ensures CountEqual(prizes, finals, |finals|) == |Wins(prizes, guesses, coins, switch)|
  {
    CountEqualIsMatchingIndices(prizes, finals, |finals|);
    assert MatchingIndices(prizes, finals, |finals|) == Wins(prizes, guesses, coins, switch);
  }

  /** Switching wins exactly the games whose first guess was wrong. */
  lemma SwitchWinsExactlyWrongGuesses(prizes: seq<Door>, guesses: seq<Door>, coins: seq<bool>)
    requires |prizes| == |guesses| == |coins|
    ensures Wins(prizes, guesses, coins, true) == set i | 0 <= i < |prizes| && prizes[i] != guesses[i]
  {
  }

  /** Staying wins exactly the games whose first guess was right. */
  lemma StayWinsExactlyRightGuesses(prizes: seq<Door>, guesses: seq<Door>, coins: seq<bool>)
    requires |prizes| == |guesses| == |coins|
    ensures Wins(prizes, guesses, coins, false) == set i | 0 <= i < |prizes| && prizes[i] == guesses[i]
  {
  }

  /**
   * Plays `n` games with the given prize doors, first guesses and host coins,
   * and counts the games the contestant wins, always switching or never.
   */
  method RunMonty(n: nat, prizes: seq<Door>, guesses: seq<Door>, coins: seq<bool>, switch: bool)
    returns (wins: nat)
    requires |prizes| == n && |guesses| == n && |coins| == n
    ensures wins == |Wins(prizes, guesses, coins, switch)|
    ensures wins <= n
    ensures switch ==> wins == |set i | 0 <= i < n && prizes[i] != guesses[i]|
    ensures !switch ==> wins == |set i | 0 <= i < n && prizes[i] == guesses[i]|
  {
    var goats := GoatDoors(prizes, guesses, coins);
    var contestants;
    if switch {
      contestants := SwitchGuesses(guesses, goats);
    } else {
      contestants := guesses;
    }
    assert |contestants| == n;
    wins := 0;
    var i := 0;
    while i < n
      invariant 0 <= i <= n
      invariant wins == CountEqual(prizes, contestants, i)
    {
      if prizes[i] == contestants[i] {
        wins := wins + 1;
      }
      i := i + 1;
    }
    if switch {
      forall j | 0 <= j < n
        ensures contestants[j] == ContestantDoor(prizes[j], guesses[j], coins[j], switch)
      {
        assert goats[j] == GoatDoor(prizes[j], guesses[j], coins[j]);
      }
    }
    TallyCountsWins(prizes, guesses, coins, switch, contestants);
    if switch {
      SwitchWinsExactlyWrongGuesses(prizes, guesses, coins);
    } else {
      StayWinsExactlyRightGuesses(prizes, guesses, coins);
    }
  }
}
