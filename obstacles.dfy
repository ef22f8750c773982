/** The scrolling obstacle list of `Game` (`obstacles: Vec<(usize, &str)>`). */
module Obstacles {
  import opened Config

  /** A building at column `x`; `glyph` is the first character of its string. */
  datatype Obstacle = Obstacle(x: nat, glyph: char)

  /** `x.saturating_sub(1)` on one obstacle. */
  function Advance(o: Obstacle): Obstacle
  {
    o.(x := if o.x > 0 then o.x - 1 else 0)
  }

  /** Every obstacle moves one column to the left. */
  function ShiftAll(s: seq<Obstacle>): seq<Obstacle>
  {
    seq(|s|, i requires 0 <= i < |s| => Advance(s[i]))
  }

  /** `retain(|&(x, _)| x > 0)`: drops the obstacles that reached column 0. */
  function Retire(s: seq<Obstacle>): seq<Obstacle>
  {
    if s == [] then []
    else Retire(s[..|s| - 1]) + (if s[|s| - 1].x > 0 then [s[|s| - 1]] else [])
  }

  /** `iter().any(|&(x, _)| x == col)`. */
  function AnyAtColumn(s: seq<Obstacle>, col: nat): (r: bool)
    ensures r <==> exists i :: 0 <= i < |s| && s[i].x == col
  {
    if s == [] then false
    else AnyAtColumn(s[..|s| - 1], col) || s[|s| - 1].x == col
  }

  /** A new building at the right edge, only when the roll succeeds and that column is free. */
  function Spawn(s: seq<Obstacle>, roll: bool, glyph: char): (r: seq<Obstacle>)
    ensures |r| == |s| || |r| == |s| + 1
    ensures r[..|s|] == s
    ensures |r| == |s| + 1 <==> roll && forall i :: 0 <= i < |s| ==> s[i].x != GAME_WIDTH - 1
    ensures |r| == |s| + 1 ==> r[|s|] == Obstacle(GAME_WIDTH - 1, glyph)
  {
    if roll && !AnyAtColumn(s, GAME_WIDTH - 1) then s + [Obstacle(GAME_WIDTH - 1, glyph)] else s
  }

  /** The obstacle part of one admitted tick: shift, retire, maybe spawn. */
  function StepObstacles(s: seq<Obstacle>, roll: bool, glyph: char): seq<Obstacle>
  {
    Spawn(Retire(ShiftAll(s)), roll, glyph)
  }

  /** Columns strictly increase along the list: older obstacles are further left. */
  predicate Ordered(s: seq<Obstacle>)
  {
    forall i, j :: 0 <= i < j < |s| ==> s[i].x < s[j].x
  }

  /** Every obstacle is on screen, right of column 0, and is one of the buildings. */
  predicate OnScreen(s: seq<Obstacle>)
  {
    forall i :: 0 <= i < |s| ==> 1 <= s[i].x < GAME_WIDTH && s[i].glyph in BUILDINGS
  }

  predicate WellFormed(s: seq<Obstacle>)
  {
    Ordered(s) && OnScreen(s)
  }

  /** Retiring distributes over concatenation. */
  lemma {:induction false} RetireAppend(a: seq<Obstacle>, b: seq<Obstacle>)
    ensures Retire(a + b) == Retire(a) + Retire(b)
  {
    if b != [] {
      var b' := b[..|b| - 1];
      assert (a + b)[..|a + b| - 1] == a + b';
      RetireAppend(a, b');
    } else {
      assert a + b == a;
    }
  }

  /** The survivors are exactly the obstacles whose column is still positive. */
  lemma {:induction false} RetireMembers(s: seq<Obstacle>)
    ensures forall o :: o in Retire(s) <==> o in s && o.x > 0
  {
    if s != [] {
      var p := s[..|s| - 1];
      RetireMembers(p);
      assert s == p + [s[|s| - 1]];
    }
  }

  /** Retiring keeps the relative order of the survivors. */
  lemma {:induction false} RetireKeepsOrdered(s: seq<Obstacle>)
    requires Ordered(s)
    ensures Ordered(Retire(s))
  {
    if s != [] {
      var p := s[..|s| - 1];
      var last := s[|s| - 1];
      RetireKeepsOrdered(p);
      RetireMembers(p);
      forall o | o in Retire(p)
        ensures o.x < last.x
      {
        var k :| 0 <= k < |p| && p[k] == o;
        assert s[k] == o;
      }
    }
  }

  /** With nothing at column 0, retiring changes nothing. */
  lemma {:induction false} RetireAllPositive(s: seq<Obstacle>)
    requires forall i :: 0 <= i < |s| ==> s[i].x > 0
    ensures Retire(s) == s
  {
    if s != [] {
      var p := s[..|s| - 1];
      RetireAllPositive(p);
      assert s == p + [s[|s| - 1]];
    }
  }

  /** In an ordered list at most the first obstacle can be at column 0, so a tick retires at most one. */
  lemma RetireOrderedDropsHead(s: seq<Obstacle>)
    requires Ordered(s) && s != []
    ensures Retire(s) == if s[0].x == 0 then s[1..] else s
  {
    var head, tail := s[0], s[1..];
    assert s == [head] + tail;
    TailPositive(s);
    RetireAllPositive(tail);
    RetireSingle(head);
    RetireAppend([head], tail);
  }

  /** Behind the head of an ordered list every column is positive. */
  lemma TailPositive(s: seq<Obstacle>)
    requires Ordered(s) && s != []
    ensures forall i :: 0 <= i < |s[1..]| ==> s[1..][i].x > 0
  {
    forall i | 0 <= i < |s[1..]|
      ensures s[1..][i].x > 0
    {
      assert s[0].x < s[i + 1].x;
    }
  }

  /** `retain` on one obstacle keeps it exactly when its column is positive. */
  lemma RetireSingle(o: Obstacle)
    ensures Retire([o]) == if o.x > 0 then [o] else []
  {
  }

  /** After the shift and the retirement, every survivor is one column left of an obstacle it came from. */
  lemma SurvivorsAreAdvanced(s: seq<Obstacle>)
    ensures forall o :: o in Retire(ShiftAll(s)) <==> o.x > 0 && exists i :: 0 <= i < |s| && o == Advance(s[i])
  {
    RetireMembers(ShiftAll(s));
    forall o ensures o in ShiftAll(s) <==> exists i :: 0 <= i < |s| && o == Advance(s[i]) {
      if o in ShiftAll(s) {
        var i :| 0 <= i < |s| && ShiftAll(s)[i] == o;
      }
      if exists i :: 0 <= i < |s| && o == Advance(s[i]) {
        var i :| 0 <= i < |s| && o == Advance(s[i]);
        assert ShiftAll(s)[i] == o;
      }
    }
  }

  /** Well-formed lists shift to ordered lists that end before the spawn column. */
  lemma ShiftWellFormed(s: seq<Obstacle>)
    requires WellFormed(s)
    ensures Ordered(ShiftAll(s))
    ensures forall i :: 0 <= i < |s| ==> ShiftAll(s)[i].x < GAME_WIDTH - 1 && ShiftAll(s)[i].glyph in BUILDINGS
  {
  }

  /** The survivors of a well-formed list are well formed and all left of the spawn column. */
  lemma {:induction false} SurvivorsWellFormed(s: seq<Obstacle>)
    requires WellFormed(s)
    ensures WellFormed(Retire(ShiftAll(s)))
    ensures forall i :: 0 <= i < |Retire(ShiftAll(s))| ==> Retire(ShiftAll(s))[i].x < GAME_WIDTH - 1
  {
    var t := ShiftAll(s);
    ShiftWellFormed(s);
    RetireKeepsOrdered(t);
    RetireMembers(t);
    var u := Retire(t);
    forall i | 0 <= i < |u|
      ensures 1 <= u[i].x < GAME_WIDTH - 1 && u[i].glyph in BUILDINGS
    {
      assert u[i] in t;
    }
  }

  /** The spawn guard never blocks on a well-formed list: no survivor is at the spawn column. */
  lemma SpawnGuardNeverBlocks(s: seq<Obstacle>)
    requires WellFormed(s)
    ensures !AnyAtColumn(Retire(ShiftAll(s)), GAME_WIDTH - 1)
  {
    SurvivorsWellFormed(s);
  }

  /** Spawning at the right edge keeps a list that ends left of the spawn column well formed. */
  lemma SpawnKeepsWellFormed(u: seq<Obstacle>, roll: bool, glyph: char)
    requires WellFormed(u) && glyph in BUILDINGS
    requires forall i :: 0 <= i < |u| ==> u[i].x < GAME_WIDTH - 1
    ensures WellFormed(Spawn(u, roll, glyph))
  {
  }

  /** An admitted tick keeps the list well formed. */
  lemma StepKeepsWellFormed(s: seq<Obstacle>, roll: bool, glyph: char)
    requires WellFormed(s) && glyph in BUILDINGS
    ensures WellFormed(StepObstacles(s, roll, glyph))
  {
    SurvivorsWellFormed(s);
    SpawnKeepsWellFormed(Retire(ShiftAll(s)), roll, glyph);
  }

  /** In an ordered list at most one obstacle sits at any column, in particular at the spawn column. */
  lemma AtMostOneAtColumn(s: seq<Obstacle>, col: nat)
    requires Ordered(s)
    ensures forall i, j :: 0 <= i < |s| && 0 <= j < |s| && s[i].x == col && s[j].x == col ==> i == j
  {
  }
}
