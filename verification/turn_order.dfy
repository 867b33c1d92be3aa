/** The seating order of uno/_game.py: `_cycle` and `Players`. Seats are
    the indices 0 .. count-1 of the player list; the list itself never
    changes, so a seat stands for its player. `order` and `pos` are the
    state of the itertools.cycle iterator: the rotated list it repeats and
    the index of the next value it yields. */
module TurnOrder {
  import opened Outcomes

  /** x reduced into 0 .. n-1 for x no more than one lap away from it. */
  function Wrap(x: int, n: nat): (r: nat)
    requires n >= 1 && 0 <= x + n < 3 * n
    ensures r < n
    ensures r == x || r == x - n || r == x + n
  {
    if x < 0 then x + n else if x >= n then x - n else x
  }

  /** The seat k places after seat a in the direction of play, counted
      around a table of n seats (k may be negative or up to one lap). */
  function Around(a: nat, k: int, reversed: bool, n: nat): (r: nat)
    requires a < n && 0 < k + n <= 2 * n
    ensures r < n
  {
    var x := if reversed then a - k else a + k;
    if x < 0 then x + n else if x >= n then x - n else x
  }

  function SeatList(n: nat): (r: seq<nat>)
    ensures |r| == n && forall i :: 0 <= i < n ==> r[i] == i
  {
    seq(n, i requires 0 <= i < n => i)
  }

  /** list(reversed(s)). */
  function Reversed(s: seq<nat>): (r: seq<nat>)
    ensures |r| == |s| && forall i :: 0 <= i < |s| ==> r[i] == s[|s| - 1 - i]
  {
    seq(|s|, i requires 0 <= i < |s| => s[|s| - 1 - i])
  }

  /** list.index(x): the first position holding x. */
  function IndexOf(s: seq<nat>, x: nat): (i: nat)
    requires x in s
    ensures i < |s| && s[i] == x
    ensures forall j :: 0 <= j < i ==> s[j] != x
  {
    if s[0] == x then 0 else 1 + IndexOf(s[1..], x)
  }

  /** The seat `_cycle` starts after: the current player, or with none yet
      the last seat going forward and seat 0 going backward. */
  function StartAnchor(n: nat, current: Option<nat>, reversed: bool): nat
    requires n >= 1
  {
    match current
    case Some(c) => c
    case None => if reversed then 0 else n - 1
  }

  /** `_cycle`: the player list, reversed when play goes backward, rotated
      to begin just after the anchor. The k-th value is the seat k+1 places
      after the anchor in the direction of play. */
  function CycleOrder(n: nat, current: Option<nat>, reversed: bool): (r: seq<nat>)
    requires n >= 1 && (current.Some? ==> current.value < n)
    ensures |r| == n
    ensures forall k :: 0 <= k < n ==> r[k] == Around(StartAnchor(n, current, reversed), k + 1, reversed, n)
  {
    var anchor := StartAnchor(n, current, reversed);
    var values := if reversed then Reversed(SeatList(n)) else SeatList(n);
    assert values[if reversed then n - 1 - anchor else anchor] == anchor;
    var start := IndexOf(values, anchor) + 1;
    assert start == (if reversed then n - anchor else anchor + 1);
    values[start..] + values[..start]
  }

  datatype Players = Players(
    count: nat,
    current: Option<nat>,
    reversed: bool,
    turn: nat,
    order: seq<nat>,
    pos: nat)

  /** The seat the next call to next() is counted from. */
  function Anchor(p: Players): nat
    requires p.count >= 1
  {
    StartAnchor(p.count, p.current, p.reversed)
  }

  /** The values of a cycle that, read from position `pos` on, yields the
      seats after the anchor `a` in the direction of play. */
  function Ring(a: nat, pos: nat, reversed: bool, n: nat): (r: seq<nat>)
    requires a < n && pos < n
    ensures |r| == n
    ensures forall k :: 0 <= k < n ==> r[k] == Around(a, k - pos + 1, reversed, n)
  {
    seq<nat>(n, k requires 0 <= k < n => Around(a, k - pos + 1, reversed, n))
  }

  /** The cycle repeats the seats in the direction of play, and the value it
      yields next is the seat after the anchor. */
  predicate Valid(p: Players) {
    && p.count >= 1
    && p.pos < p.count
    && (p.current.Some? ==> p.current.value < p.count)
    && p.order == Ring(Anchor(p), p.pos, p.reversed, p.count)
  }

  /** check_players: two to five players. */
  function CheckPlayers(count: nat): (r: Result<nat>)
    ensures r.Ok? <==> 2 <= count <= 5
    ensures r.Ok? ==> r.value == count
  {
    if 2 <= count <= 5 then Ok(count) else Err(BadPlayerCount)
  }

  /** Players(players): no current player, forward, turn 0. */
  function NewPlayers(count: nat): (r: Result<Players>)
    ensures r.Ok? <==> 2 <= count <= 5
    ensures r.Ok? ==>
      && Valid(r.value) && r.value.count == count && r.value.current.None?
      && !r.value.reversed && r.value.turn == 0
  {
    var n :- CheckPlayers(count);
    Ok(Players(n, None, false, 0, CycleOrder(n, None, false), 0))
  }

  datatype Turn = Turn(players: Players, seat: nat)

  /** Players.next: the cycle's next value becomes the current player and
      the turn counter goes up. */
  function Next(p: Players): (t: Turn)
    requires Valid(p)
    ensures Valid(t.players)
    ensures t.seat == Around(Anchor(p), 1, p.reversed, p.count)
    ensures t.players.current == Some(t.seat)
    ensures t.players.turn == p.turn + 1
    ensures t.players.count == p.count && t.players.reversed == p.reversed
  {
    var seat := p.order[p.pos];
    var pos := if p.pos + 1 == p.count then 0 else p.pos + 1;
    NextValid(p);
    Turn(p.(current := Some(seat), turn := p.turn + 1, pos := pos), seat)
  }

  /** After a call to next() the value just yielded is the new anchor. */
  lemma NextValid(p: Players)
    requires Valid(p)
    ensures p.order[p.pos] == Around(Anchor(p), 1, p.reversed, p.count)
    ensures Valid(p.(current := Some(p.order[p.pos]), turn := p.turn + 1,
                     pos := if p.pos + 1 == p.count then 0 else p.pos + 1))
  {
    RingShift(Anchor(p), p.pos, p.reversed, p.count);
  }

  /** Reading the ring one position further on is the ring anchored at the
      value just read. */
  lemma RingShift(a: nat, pos: nat, r: bool, n: nat)
    requires a < n && pos < n
    ensures Ring(a, pos, r, n)[pos] == Around(a, 1, r, n)
    ensures Ring(a, pos, r, n) == Ring(Around(a, 1, r, n), if pos + 1 == n then 0 else pos + 1, r, n)
  {
    var ring, next := Ring(a, pos, r, n), if pos + 1 == n then 0 else pos + 1;
    var seat := Around(a, 1, r, n);
    assert ring[pos] == Around(a, pos - pos + 1, r, n);
    forall k | 0 <= k < n
      ensures ring[k] == Ring(seat, next, r, n)[k]
    {
      RotateStep(a, r, n, pos, k);
    }
  }

  lemma RotateStep(a: nat, r: bool, n: nat, pos: nat, k: nat)
    requires a < n && pos < n && k < n
    ensures Around(a, k - pos + 1, r, n)
         == Around(Around(a, 1, r, n), k - (if pos + 1 == n then 0 else pos + 1) + 1, r, n)
  {
  }

  /** Players.skip: one call to next(). */
  function Skip(p: Players): (q: Players)
    requires Valid(p)
    ensures Valid(q) && q.count == p.count && q.reversed == p.reversed && q.turn == p.turn + 1
    ensures q.current == Some(Around(Anchor(p), 1, p.reversed, p.count))
  {
    Next(p).players
  }

  /** Players.reverse: flip the direction and rebuild the cycle around the
      current player, so that the next player is the current player's
      neighbour in the new direction. */
  function Reverse(p: Players): (q: Players)
    requires Valid(p)
    ensures Valid(q)
    ensures q.reversed == !p.reversed
    ensures q.count == p.count && q.current == p.current && q.turn == p.turn
    ensures Next(q).seat == Around(StartAnchor(p.count, p.current, !p.reversed), 1, !p.reversed, p.count)
  {
    var rev := !p.reversed;
    p.(reversed := rev, order := CycleOrder(p.count, p.current, rev), pos := 0)
  }

  /** Players.first: seat 0, whatever the state. */
  function First(p: Players): (seat: nat)
    requires Valid(p)
    ensures seat < p.count && seat == 0
  {
    0
  }

  /** The player Game.run asks for the colour of a flipped wild card is the
      one the first call to next() yields. */
  lemma FirstIsFirstNext(count: nat)
    requires 2 <= count <= 5
    ensures Next(NewPlayers(count).value).seat == First(NewPlayers(count).value)
  {
  }

  /** Two calls to next() from a fresh state yield seats 0 and 1 going
      forward; after a reverse the first call yields the last seat. */
  lemma InitialDirection(count: nat)
    requires 2 <= count <= 5
    ensures var p := NewPlayers(count).value;
      && Next(p).seat == 0
      && Next(Next(p).players).seat == 1
      && Next(Reverse(p)).seat == count - 1
      && Next(Next(Reverse(p)).players).seat == count - 2
  {
  }

  /** Once a player has played, reversing makes the next player the one
      before it, and reversing twice in a row changes nothing about who
      comes next. */
  lemma ReverseAfterPlay(p: Players)
    requires Valid(p) && p.current.Some?
    ensures !p.reversed ==> Next(Reverse(p)).seat == Wrap(p.current.value - 1, p.count)
    ensures p.reversed ==> Next(Reverse(p)).seat == Wrap(p.current.value + 1, p.count)
    ensures Next(Reverse(Reverse(p))).seat == Next(p).seat
    ensures Reverse(Reverse(p)).reversed == p.reversed
  {
  }

  /** The k-th of a run of next() calls yields the seat k places after the
      anchor in the direction of play, so a full lap ends at the anchor. */
  lemma {:induction false} LapVisitsEverySeat(p: Players, k: nat)
    requires Valid(p) && 1 <= k <= p.count
    ensures Valid(Laps(p, k).players)
    ensures Laps(p, k).seat == Around(Anchor(p), k, p.reversed, p.count)
    ensures Laps(p, k).players.reversed == p.reversed && Laps(p, k).players.count == p.count
    ensures Laps(p, k).players.turn == p.turn + k
    ensures k == p.count ==> Laps(p, k).seat == Anchor(p)
    decreases k
  {
    if k > 1 {
      LapVisitsEverySeat(p, k - 1);
    }
  }

  /** k calls to next(); the seat the last one yields. */
  function Laps(p: Players, k: nat): (t: Turn)
    requires Valid(p) && k >= 1
    ensures Valid(t.players)
    decreases k
  {
    if k == 1 then Next(p) else Next(Laps(p, k - 1).players)
  }

  /** tests/test_players.py, test_players_next, test_players_skip and
      test_players_skip_after_init: with three players, 1, 2, 3, 1; 1, skip,
      3; and skip, 2, 3. */
  lemma NextAndSkipTrace()
    ensures var p := NewPlayers(3).value;
      && Next(p).seat == 0
      && Next(Next(p).players).seat == 1
      && Next(Next(Next(p).players).players).seat == 2
      && Next(Next(Next(Next(p).players).players).players).seat == 0
      && Next(Skip(Next(p).players)).seat == 2
      && Next(Skip(p)).seat == 1
      && Next(Next(Skip(p)).players).seat == 2
  {
  }

  /** tests/test_players.py, test_players_reverse_next_next_reverse: with
      four players, 1, 2, reverse, 1, 4, reverse, 1, 2, 3. */
  lemma ReverseNextNextReverseTrace()
    ensures var t1 := Next(NewPlayers(4).value);
      var t2 := Next(t1.players);
      var t3 := Next(Reverse(t2.players));
      var t4 := Next(t3.players);
      var t5 := Next(Reverse(t4.players));
      var t6 := Next(t5.players);
      var t7 := Next(t6.players);
      [t1.seat, t2.seat, t3.seat, t4.seat, t5.seat, t6.seat, t7.seat] == [0, 1, 0, 3, 0, 1, 2]
  {
  }

  /** tests/test_players.py, test_players_reverse_next_skip: with three
      players, 1, 2, reverse, 1, skip, 2, 1. */
  lemma ReverseNextSkipTrace()
    ensures var t1 := Next(NewPlayers(3).value);
      var t2 := Next(t1.players);
      var t3 := Next(Reverse(t2.players));
      var t4 := Next(Skip(t3.players));
      var t5 := Next(t4.players);
      [t1.seat, t2.seat, t3.seat, t4.seat, t5.seat] == [0, 1, 0, 1, 0]
  {
  }

  /** tests/test_players.py, test_players_reverse_after_init: with three
      players, reverse, 3, 2, 1, 3. */
  lemma ReverseAfterInitTrace()
    ensures var t1 := Next(Reverse(NewPlayers(3).value));
      var t2 := Next(t1.players);
      var t3 := Next(t2.players);
      var t4 := Next(t3.players);
      [t1.seat, t2.seat, t3.seat, t4.seat] == [2, 1, 0, 2]
  {
  }

  /** tests/test_players.py, test_players_reverse_next_reverse: with four
      players, 1, 2, reverse, 1, reverse, 2, 3, 4. */
  lemma ReverseNextReverseTrace()
    ensures var t1 := Next(NewPlayers(4).value);
      var t2 := Next(t1.players);
      var t3 := Next(Reverse(t2.players));
      var t4 := Next(Reverse(t3.players));
      var t5 := Next(t4.players);
      var t6 := Next(t5.players);
      [t1.seat, t2.seat, t3.seat, t4.seat, t5.seat, t6.seat] == [0, 1, 0, 1, 2, 3]
  {
  }
}
