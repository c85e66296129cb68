/** The room graph and its builder (`getStartingRoom`).

    The graph is an arena: room `i` is `rooms[i]`, and an exit holds the index
    of the room it leads to. The builder's random draws are an explicit input. */
module Rooms {
  import opened Meetup

  datatype Dir = North | East | South | West

  /** The four exit slots in the order the builder scans them. */
  const Slots: seq<Dir> := [North, East, South, West]

  /** The slot on the new room that links back, paired with each slot of `Slots`. */
  const BackSlots: seq<Dir> := [South, West, North, East]

  function SlotIndex(d: Dir): (k: nat)
    ensures k < 4 && Slots[k] == d
  {
    match d
    case North => 0
    case East => 1
    case South => 2
    case West => 3
  }

  /** The geometrically opposite exit: the slot `BackSlots` pairs with `d`. */
  function Opposite(d: Dir): (o: Dir)
    ensures o == BackSlots[SlotIndex(d)]
    ensures o != d
  {
    match d
    case North => South
    case East => West
    case South => North
    case West => East
  }

  /** A room: the event it wraps and its four exits. */
  datatype Cell = Cell(current: Event, north: Option<nat>, east: Option<nat>, south: Option<nat>, west: Option<nat>)
  {
    function Exit(d: Dir): Option<nat> {
      match d
      case North => north
      case East => east
      case South => south
      case West => west
    }

    /** This room with exit `d` set to `t`. */
    function WithExit(d: Dir, t: Option<nat>): (c: Cell)
      ensures c.current == current
      ensures forall d' :: c.Exit(d') == if d' == d then t else Exit(d')
    {
      match d
      case North => this.(north := t)
      case East => this.(east := t)
      case South => this.(south := t)
      case West => this.(west := t)
    }
  }

  type Graph = seq<Cell>

  function EmptyCell(e: Event): Cell {
    Cell(e, None, None, None, None)
  }

  /** The empty exits of a room, in slot order: the `availableDirections` of one builder iteration. */
  function FreeExits(c: Cell): (r: seq<Dir>)
    ensures |r| <= 4
    ensures forall d :: d in r <==> c.Exit(d) == None
    ensures forall i, j :: 0 <= i < j < |r| ==> SlotIndex(r[i]) < SlotIndex(r[j])
  {
    (if c.north == None then [North] else []) +
    (if c.east == None then [East] else []) +
    (if c.south == None then [South] else []) +
    (if c.west == None then [West] else [])
  }

  /** The linked exits of a room, in slot order: what LOOK lists. */
  function OpenExits(c: Cell): (r: seq<Dir>)
    ensures |r| + |FreeExits(c)| == 4
    ensures forall d :: d in r <==> c.Exit(d).Some?
    ensures forall i, j :: 0 <= i < j < |r| ==> SlotIndex(r[i]) < SlotIndex(r[j])
  {
    (if c.north.Some? then [North] else []) +
    (if c.east.Some? then [East] else []) +
    (if c.south.Some? then [South] else []) +
    (if c.west.Some? then [West] else [])
  }

  /** `rand.Intn(n)` is modelled by a raw draw reduced below `n`. */
  function Intn(raw: nat, n: nat): (k: nat)
    requires n > 0
    ensures k < n
  {
    raw % n
  }

  /** The two random draws of one builder iteration: the exit index and the percentage. */
  datatype Draw = Draw(dir: nat, percent: nat)

  /** The builder's state between iterations: the rooms so far and the current room. */
  datatype Builder = Builder(rooms: Graph, curr: nat)

  function Start(e: Event): Builder {
    Builder([EmptyCell(e)], 0)
  }

  /** One iteration of the builder's loop, for event `e` with draws `draw`. */
  function Attach(b: Builder, e: Event, draw: Draw): (b': Builder)
    requires b.curr < |b.rooms|
    ensures |b'.rooms| == |b.rooms| + 1 && b'.curr < |b'.rooms|
  {
    var k := |b.rooms|;
    var free := FreeExits(b.rooms[b.curr]);
    var rooms :=
      if |free| > 0 then
        var d := free[Intn(draw.dir, |free|)];
        b.rooms[b.curr := b.rooms[b.curr].WithExit(d, Some(k))] + [EmptyCell(e).WithExit(Opposite(d), Some(b.curr))]
      else
        b.rooms + [EmptyCell(e)];
    var advance := Intn(draw.percent, 100) < 75 || |free| <= 1;
    Builder(rooms, if advance then k else b.curr)
  }

  /** The builder's state after the loop has consumed the first `k` events. */
  function Build(events: seq<Event>, draws: seq<Draw>, k: nat): (b: Builder)
    requires 0 < k <= |events| && |draws| >= |events| - 1
    ensures |b.rooms| == k && b.curr < |b.rooms|
    decreases k
  {
    if k == 1 then Start(events[0])
    else Attach(Build(events, draws, k - 1), events[k - 1], draws[k - 2])
  }

  /** An iteration puts the new event in the new room and leaves every other room's event alone. */
  lemma AttachEvents(b: Builder, e: Event, draw: Draw)
    requires b.curr < |b.rooms|
    ensures var b' := Attach(b, e, draw);
      && b'.rooms[|b.rooms|].current == e
      && forall i :: 0 <= i < |b.rooms| ==> b'.rooms[i].current == b.rooms[i].current
  {
  }

  /** After `k` iterations, room `i` holds `events[i]`; in particular the starting room holds the first event. */
  lemma {:induction false} BuildEvents(events: seq<Event>, draws: seq<Draw>, k: nat)
    requires 0 < k <= |events| && |draws| >= |events| - 1
    ensures forall i :: 0 <= i < k ==> Build(events, draws, k).rooms[i].current == events[i]
    decreases k
  {
    if k > 1 {
      BuildEvents(events, draws, k - 1);
      AttachEvents(Build(events, draws, k - 1), events[k - 1], draws[k - 2]);
    }
  }

  /** The builder's state after the loop has consumed all of `events`. */
  function Run(events: seq<Event>, draws: seq<Draw>): (b: Builder)
    requires |events| > 0 && |draws| >= |events| - 1
    ensures |b.rooms| == |events| && b.curr < |b.rooms|
  {
    Build(events, draws, |events|)
  }

  /** `getStartingRoom`: builds the rooms for `events`, room 0 being the starting
      room: one room per event, in order, forming a linked tree with one pair of
      opposite exits per room after the first. */
  method GetStartingRoom(events: seq<Event>, draws: seq<Draw>) returns (rooms: Graph)
    requires |events| > 0 && |draws| >= |events| - 1
    ensures rooms == Run(events, draws).rooms
    ensures |rooms| == |events| && forall i :: 0 <= i < |events| ==> rooms[i].current == events[i]
    ensures Linked(rooms) && Tree(rooms) && ExitCount(rooms) == 2 * (|rooms| - 1)
  {
    rooms := BuildRooms(events, draws);
    RunShape(events, draws);
  }

  /** The builder's loop: one room attached per event after the first. */
  method BuildRooms(events: seq<Event>, draws: seq<Draw>) returns (rooms: Graph)
    requires |events| > 0 && |draws| >= |events| - 1
    ensures rooms == Run(events, draws).rooms
  {
    rooms := [EmptyCell(events[0])];
    var curr: nat := 0;
    var k := 1;
    while k < |events|
      invariant 1 <= k <= |events|
      invariant rooms == Build(events, draws, k).rooms && curr == Build(events, draws, k).curr
    {
      rooms, curr := AttachRoom(rooms, curr, events[k], draws[k - 1]);
      k := k + 1;
    }
  }

  /** What the built graph holds: one room per event, in order, forming a linked
      tree with one pair of opposite exits per room after the first. */
  lemma RunShape(events: seq<Event>, draws: seq<Draw>)
    requires |events| > 0 && |draws| >= |events| - 1
    ensures var g := Run(events, draws).rooms;
      && |g| == |events| && (forall i :: 0 <= i < |events| ==> g[i].current == events[i])
      && Linked(g) && Tree(g) && ExitCount(g) == 2 * (|g| - 1)
  {
    BuildEvents(events, draws, |events|);
    RunInv(events, draws);
  }

  /** One pass through the builder's loop body: a new room for `e`, linked to the
      current room through a free exit when there is one, and the advance draw. */
  method AttachRoom(rooms: Graph, curr: nat, e: Event, draw: Draw) returns (rooms': Graph, curr': nat)
    requires curr < |rooms|
    ensures Builder(rooms', curr') == Attach(Builder(rooms, curr), e, draw)
  {
    var newCell := EmptyCell(e);
    var available := FreeExits(rooms[curr]);
    rooms' := rooms;
    if |available| > 0 {
      var d := available[Intn(draw.dir, |available|)];
      newCell := newCell.WithExit(Opposite(d), Some(curr));
      rooms' := rooms'[curr := rooms'[curr].WithExit(d, Some(|rooms|))];
    }
    rooms' := rooms' + [newCell];
    curr' := curr;
    if Intn(draw.percent, 100) < 75 || |available| <= 1 {
      curr' := |rooms'| - 1;
    }
  }

  // ---------------------------------------------------------------------------
  // The shape of a built graph

  /** Every exit leads to a room of the graph. */
  ghost predicate InRange(g: Graph) {
    forall i, d :: 0 <= i < |g| && g[i].Exit(d).Some? ==> g[i].Exit(d).value < |g|
  }

  /** Opposite-consistency: leaving room `i` by `d` to room `j`, room `j`'s opposite exit leads back to `i`. */
  ghost predicate Symmetric(g: Graph) {
    forall i, d :: 0 <= i < |g| && g[i].Exit(d).Some? && g[i].Exit(d).value < |g| ==>
      g[g[i].Exit(d).value].Exit(Opposite(d)) == Some(i)
  }

  ghost predicate Linked(g: Graph) {
    InRange(g) && Symmetric(g)
  }

  /** The number of exits of room `i` that lead to a room built before it. */
  function DownLinks(c: Cell, i: nat): nat {
    Below(c.Exit(North), i) + Below(c.Exit(East), i) + Below(c.Exit(South), i) + Below(c.Exit(West), i)
  }

  function Below(t: Option<nat>, i: nat): nat {
    if t.Some? && t.value < i then 1 else 0
  }

  /** Every room after the first has exactly one exit back to an earlier room: its parent. */
  ghost predicate Tree(g: Graph) {
    forall i :: 0 < i < |g| ==> DownLinks(g[i], i) == 1
  }

  /** The number of linked exits of one room. */
  function Degree(c: Cell): nat {
    |OpenExits(c)|
  }

  /** The number of linked exits in the whole graph. */
  function ExitCount(g: Graph): nat {
    if g == [] then 0 else ExitCount(g[..|g| - 1]) + Degree(g[|g| - 1])
  }

  /** What holds between any two iterations of the builder's loop. */
  ghost predicate Inv(b: Builder) {
    && b.curr < |b.rooms|
    && Linked(b.rooms)
    && Tree(b.rooms)
    && |FreeExits(b.rooms[b.curr])| > 0
    && ExitCount(b.rooms) == 2 * (|b.rooms| - 1)
  }

  /** Replacing one room changes the exit count by the difference in its degree. */
  lemma {:induction false} ExitCountUpdate(g: Graph, i: nat, c: Cell)
    requires i < |g|
    ensures ExitCount(g[i := c]) + Degree(g[i]) == ExitCount(g) + Degree(c)
    decreases |g|
  {
    var n := |g|;
    if i < n - 1 {
      assert g[i := c][..n - 1] == g[..n - 1][i := c];
      ExitCountUpdate(g[..n - 1], i, c);
    } else {
      assert g[i := c][..n - 1] == g[..n - 1];
    }
  }

  /** Each iteration links the new room to the current one through an exit that was
      empty, links it back through the opposite exit, and rewrites no other exit. */
  lemma AttachLinks(b: Builder, e: Event, draw: Draw)
    requires Inv(b)
    ensures var b' := Attach(b, e, draw); var k := |b.rooms|;
      && (exists d :: b.rooms[b.curr].Exit(d) == None && b'.rooms[b.curr].Exit(d) == Some(k)
                   && b'.rooms[k].Exit(Opposite(d)) == Some(b.curr))
      && (forall d :: b'.rooms[k].Exit(d) == None || b'.rooms[k].Exit(d) == Some(b.curr))
      && (forall i, d :: 0 <= i < k && b'.rooms[i].Exit(d) != b.rooms[i].Exit(d) ==>
            i == b.curr && b.rooms[i].Exit(d) == None && b'.rooms[i].Exit(d) == Some(k))
  {
    var free := FreeExits(b.rooms[b.curr]);
    var d := free[Intn(draw.dir, |free|)];
    assert b.rooms[b.curr].Exit(d) == None;
  }

  /** Under the invariant, an iteration always takes the linking branch: the new room
      is appended, and room `curr` gains exit `d`, which was empty. */
  lemma AttachShape(b: Builder, e: Event, draw: Draw) returns (d: Dir)
    requires Inv(b)
    ensures var k := |b.rooms|; var b' := Attach(b, e, draw);
      && b.rooms[b.curr].Exit(d) == None
      && b'.rooms == b.rooms[b.curr := b.rooms[b.curr].WithExit(d, Some(k))] + [EmptyCell(e).WithExit(Opposite(d), Some(b.curr))]
      && (b'.curr == b.curr ==> |FreeExits(b.rooms[b.curr])| >= 2)
      && (b'.curr != b.curr ==> b'.curr == k)
  {
    var free := FreeExits(b.rooms[b.curr]);
    d := free[Intn(draw.dir, |free|)];
  }

  /** One iteration keeps the loop invariant; in particular the current room always
      has an empty exit, so every new room is linked into the graph. */
  lemma AttachInv(b: Builder, e: Event, draw: Draw)
    requires Inv(b)
    ensures Inv(Attach(b, e, draw))
  {
    var d := AttachShape(b, e, draw);
    var k := |b.rooms|;
    var c := b.rooms[b.curr].WithExit(d, Some(k));
    var n := EmptyCell(e).WithExit(Opposite(d), Some(b.curr));
    var g := b.rooms[b.curr := c] + [n];
    AttachLinked(b.rooms, b.curr, d, n, k);
    AttachTree(b.rooms, b.curr, d, n, k);
    AttachCount(b.rooms, b.curr, d, n, k);
    var b' := Attach(b, e, draw);
    assert b' == Builder(g, b'.curr);
    assert |FreeExits(c)| == |FreeExits(b.rooms[b.curr])| - 1 by {
      FreeExitsOneLess(b.rooms[b.curr], d, k);
    }
    if b'.curr == b.curr {
      assert g[b'.curr] == c;
    } else {
      assert g[b'.curr] == n;
      assert North in FreeExits(n) || South in FreeExits(n);
    }
    InvIntro(g, b'.curr);
  }

  lemma InvIntro(g: Graph, curr: nat)
    requires curr < |g| && Linked(g) && Tree(g) && |FreeExits(g[curr])| > 0 && ExitCount(g) == 2 * (|g| - 1)
    ensures Inv(Builder(g, curr))
  {
  }

  lemma FreeExitsOneLess(c: Cell, d: Dir, k: nat)
    requires c.Exit(d) == None
    ensures |FreeExits(c.WithExit(d, Some(k)))| == |FreeExits(c)| - 1
    ensures Degree(c.WithExit(d, Some(k))) == Degree(c) + 1
  {
    var c' := c.WithExit(d, Some(k));
    assert forall x :: x in FreeExits(c') <==> x in FreeExits(c) && x != d;
    SlotSeqCount(FreeExits(c'), FreeExits(c), d);
  }

  lemma AttachLinked(rooms: Graph, curr: nat, d: Dir, n: Cell, k: nat)
    requires curr < |rooms| == k && Linked(rooms) && rooms[curr].Exit(d) == None
    requires n == EmptyCell(n.current).WithExit(Opposite(d), Some(curr))
    ensures Linked(rooms[curr := rooms[curr].WithExit(d, Some(k))] + [n])
  {
    var c := rooms[curr].WithExit(d, Some(k));
    var g := rooms[curr := c] + [n];
    forall i, d' | 0 <= i < |g| && g[i].Exit(d').Some?
      ensures g[i].Exit(d').value < |g|
      ensures g[g[i].Exit(d').value].Exit(Opposite(d')) == Some(i)
    {
      var j := g[i].Exit(d').value;
      if i == k {
        assert d' == Opposite(d) && j == curr;
      } else if i == curr && d' == d {
        assert j == k;
      } else {
        assert g[i].Exit(d') == rooms[i].Exit(d');
        assert rooms[j].Exit(Opposite(d')) == Some(i);
        if j == curr {
          assert Opposite(d') != d;
        }
      }
    }
  }

  lemma AttachTree(rooms: Graph, curr: nat, d: Dir, n: Cell, k: nat)
    requires curr < |rooms| == k && Tree(rooms) && rooms[curr].Exit(d) == None
    requires n == EmptyCell(n.current).WithExit(Opposite(d), Some(curr))
    ensures Tree(rooms[curr := rooms[curr].WithExit(d, Some(k))] + [n])
  {
    var c := rooms[curr].WithExit(d, Some(k));
    var g := rooms[curr := c] + [n];
    forall i | 0 < i < |g|
      ensures DownLinks(g[i], i) == 1
    {
      if i == curr {
        assert DownLinks(c, i) == DownLinks(rooms[i], i);
      }
    }
  }

  lemma AttachCount(rooms: Graph, curr: nat, d: Dir, n: Cell, k: nat)
    requires curr < |rooms| == k && rooms[curr].Exit(d) == None
    requires n == EmptyCell(n.current).WithExit(Opposite(d), Some(curr))
    ensures ExitCount(rooms[curr := rooms[curr].WithExit(d, Some(k))] + [n]) == ExitCount(rooms) + 2
  {
    var c := rooms[curr].WithExit(d, Some(k));
    var g := rooms[curr := c] + [n];
    ExitCountUpdate(rooms, curr, c);
    FreeExitsOneLess(rooms[curr], d, k);
    assert g[..k] == rooms[curr := c];
    assert ExitCount(g) == ExitCount(g[..k]) + Degree(n);
    NewRoomDegree(n.current, Opposite(d), curr);
  }

  /** A new room has exactly one exit: the one leading back. */
  lemma NewRoomDegree(e: Event, d: Dir, t: nat)
    ensures Degree(EmptyCell(e).WithExit(d, Some(t))) == 1
  {
    match d
    case North =>
    case East =>
    case South =>
    case West =>
  }

  /** Two slot-ordered lists of exits, the first holding exactly the second's members but one. */
  lemma SlotSeqCount(r: seq<Dir>, s: seq<Dir>, d: Dir)
    requires forall i, j :: 0 <= i < j < |r| ==> SlotIndex(r[i]) < SlotIndex(r[j])
    requires forall i, j :: 0 <= i < j < |s| ==> SlotIndex(s[i]) < SlotIndex(s[j])
    requires d in s && forall x :: x in r <==> x in s && x != d
    ensures |r| == |s| - 1
  {
    var rs := set x | x in r;
    var ss := set x | x in s;
    assert rs == ss - {d};
    DistinctCard(r);
    DistinctCard(s);
  }

  /** A slot-ordered list of exits has no repetitions, so its length is the size of its set. */
  lemma {:induction false} DistinctCard(r: seq<Dir>)
    requires forall i, j :: 0 <= i < j < |r| ==> SlotIndex(r[i]) < SlotIndex(r[j])
    ensures |set x | x in r| == |r|
  {
    if r != [] {
      var t := r[..|r| - 1];
      DistinctCard(t);
      assert r[|r| - 1] !in t;
      assert (set x | x in r) == (set x | x in t) + {r[|r| - 1]};
    }
  }

  /** Whatever the events and draws, the built graph is a linked tree with one
      pair of opposite exits per room after the first, and the current room still
      has an empty exit. */
  lemma RunInv(events: seq<Event>, draws: seq<Draw>)
    requires |events| > 0 && |draws| >= |events| - 1
    ensures Inv(Run(events, draws))
  {
    BuildInv(events, draws, |events|);
  }

  /** The invariant holds after every iteration. */
  lemma {:induction false} BuildInv(events: seq<Event>, draws: seq<Draw>, k: nat)
    requires 0 < k <= |events| && |draws| >= |events| - 1
    ensures Inv(Build(events, draws, k))
    decreases k
  {
    if k == 1 {
      assert FreeExits(EmptyCell(events[0])) == Slots;
      assert ExitCount([EmptyCell(events[0])]) == ExitCount([]) + Degree(EmptyCell(events[0]));
    } else {
      BuildInv(events, draws, k - 1);
      AttachInv(Build(events, draws, k - 1), events[k - 1], draws[k - 2]);
    }
  }

  // ---------------------------------------------------------------------------
  // Navigation over a built graph

  /** The room reached from `from` by following the exits in `path`, if every one is linked. */
  function Walk(g: Graph, from: nat, path: seq<Dir>): (r: Option<nat>)
    ensures r.Some? ==> r.value < |g|
    decreases |path|
  {
    if path == [] then
      if from < |g| then Some(from) else None
    else
      match Walk(g, from, path[..|path| - 1])
      case None => None
      case Some(at) =>
        match g[at].Exit(path[|path| - 1])
        case None => None
        case Some(t) => if t < |g| then Some(t) else None
  }

  /** The exit of room `i` leading to its parent. */
  function ParentDir(c: Cell, i: nat): (d: Dir)
    requires DownLinks(c, i) == 1
    ensures c.Exit(d).Some? && c.Exit(d).value < i
  {
    if Below(c.Exit(North), i) == 1 then North
    else if Below(c.Exit(East), i) == 1 then East
    else if Below(c.Exit(South), i) == 1 then South
    else West
  }

  /** A link to a room before `k`, if `t` is one, leads to room `p`. */
  ghost predicate LinkBelowTo(t: Option<nat>, k: nat, p: nat) {
    t.Some? && t.value < k ==> t.value == p
  }

  /** Every link of `c` to a room before `k` leads to room `p`. */
  ghost predicate LinksBelowTo(c: Cell, k: nat, p: nat) {
    LinkBelowTo(c.north, k, p) && LinkBelowTo(c.east, k, p) && LinkBelowTo(c.south, k, p) && LinkBelowTo(c.west, k, p)
  }

  /** The room an iteration appends links below itself only to the current room. */
  lemma AttachNewRoomLinks(b: Builder, e: Event, draw: Draw)
    requires b.curr < |b.rooms| && |FreeExits(b.rooms[b.curr])| > 0
    ensures LinksBelowTo(Attach(b, e, draw).rooms[|b.rooms|], |b.rooms|, b.curr)
  {
    var free := FreeExits(b.rooms[b.curr]);
    var d := free[Intn(draw.dir, |free|)];
    assert Attach(b, e, draw).rooms[|b.rooms|] == EmptyCell(e).WithExit(Opposite(d), Some(b.curr));
  }

  /** An iteration changes no existing room's links to rooms before it. */
  lemma AttachKeepsLinksBelow(b: Builder, e: Event, draw: Draw, k: nat, p: nat)
    requires b.curr < |b.rooms| && |FreeExits(b.rooms[b.curr])| > 0
    requires k < |b.rooms| && LinksBelowTo(b.rooms[k], k, p)
    ensures LinksBelowTo(Attach(b, e, draw).rooms[k], k, p)
  {
    var free := FreeExits(b.rooms[b.curr]);
    var d := free[Intn(draw.dir, |free|)];
    assert Attach(b, e, draw).rooms[..|b.rooms|] == b.rooms[b.curr := b.rooms[b.curr].WithExit(d, Some(|b.rooms|))];
    var c := Attach(b, e, draw).rooms[k];
    forall d' ensures LinkBelowTo(c.Exit(d'), k, p) {
      assert c.Exit(d') == b.rooms[k].Exit(d') || c.Exit(d') == Some(|b.rooms|);
      match d' { case North => case East => case South => case West => }
    }
    assert c.north == c.Exit(North) && c.east == c.Exit(East) && c.south == c.Exit(South) && c.west == c.Exit(West);
  }

  /** Between iterations the current room has an empty exit. */
  lemma BuildFreeExit(events: seq<Event>, draws: seq<Draw>, k: nat)
    requires 0 < k <= |events| && |draws| >= |events| - 1
    ensures var b := Build(events, draws, k); |FreeExits(b.rooms[b.curr])| > 0
  {
    BuildInv(events, draws, k);
  }

  /** The builder after `m` events is the builder after `j = m - 1` events with one more iteration. */
  lemma BuildStep(events: seq<Event>, draws: seq<Draw>, j: nat, m: nat)
    requires 0 < j && m == j + 1 && m <= |events| && |draws| >= |events| - 1
    ensures Build(events, draws, m) == Attach(Build(events, draws, j), events[j], draws[j - 1])
  {
    assert m - 1 == j && m - 2 == j - 1;
  }

  /** Room `k`'s links to earlier rooms all lead to the room that was current when
      room `k` was attached; later iterations only fill empty exits with links to
      newer rooms, so they never change this. */
  lemma {:induction false} DownLinkToAttacher(events: seq<Event>, draws: seq<Draw>, k: nat, m: nat)
    requires 0 < k < m <= |events| && |draws| >= |events| - 1
    ensures LinksBelowTo(Build(events, draws, m).rooms[k], k, Build(events, draws, k).curr)
    decreases m
  {
    var m' := m - 1;
    var b, p := Build(events, draws, m'), Build(events, draws, k).curr;
    BuildFreeExit(events, draws, m');
    BuildStep(events, draws, m', m);
    if m' == k {
      AttachNewRoomLinks(b, events[m'], draws[m' - 1]);
    } else {
      DownLinkToAttacher(events, draws, k, m');
      AttachKeepsLinksBelow(b, events[m'], draws[m' - 1], k, p);
    }
  }

  /** In a built graph, the parent exit of room `k` leads to the room that was
      current when room `k` was attached: the room it was attached from. */
  lemma ParentIsAttacher(events: seq<Event>, draws: seq<Draw>, k: nat)
    requires 0 < k < |events| && |draws| >= |events| - 1
    ensures var g := Run(events, draws).rooms;
      DownLinks(g[k], k) == 1 && g[k].Exit(ParentDir(g[k], k)) == Some(Build(events, draws, k).curr)
  {
    RunInv(events, draws);
    DownLinkToAttacher(events, draws, k, |events|);
    var c := Run(events, draws).rooms[k];
    var d := ParentDir(c, k);
    match d { case North => case East => case South => case West => }
  }

  /** The directions that lead from the starting room to room `i`. */
  function PathFromRoot(g: Graph, i: nat): seq<Dir>
    requires Tree(g) && i < |g|
    decreases i
  {
    if i == 0 then []
    else
      var d := ParentDir(g[i], i);
      PathFromRoot(g, g[i].Exit(d).value) + [Opposite(d)]
  }

  /** Every room of a linked tree can be reached from the starting room. */
  lemma {:induction false} Reachable(g: Graph, i: nat)
    requires Linked(g) && Tree(g) && i < |g|
    ensures Walk(g, 0, PathFromRoot(g, i)) == Some(i)
    decreases i
  {
    if i > 0 {
      var d := ParentDir(g[i], i);
      var p := g[i].Exit(d).value;
      Reachable(g, p);
      var path := PathFromRoot(g, i);
      assert path[..|path| - 1] == PathFromRoot(g, p);
    }
  }

  /** In a linked tree of two or more rooms, no room is a dead end, so LOOK always lists an exit. */
  lemma NoDeadEnds(g: Graph)
    requires Linked(g) && Tree(g) && |g| >= 2
    ensures forall i :: 0 <= i < |g| ==> OpenExits(g[i]) != []
  {
    forall i | 0 <= i < |g|
      ensures OpenExits(g[i]) != []
    {
      if i == 0 {
        var d := ParentDir(g[1], 1);
        assert g[0].Exit(Opposite(d)) == Some(1);
        assert Opposite(d) in OpenExits(g[0]);
      } else {
        var d := ParentDir(g[i], i);
        assert d in OpenExits(g[i]);
      }
    }
  }

  /** Three events with draws that always pick the first empty exit and always
      advance give a straight line running north. */
  lemma StraightLine(e1: Event, e2: Event, e3: Event)
    ensures Run([e1, e2, e3], [Draw(0, 0), Draw(0, 0)]).rooms ==
      [Cell(e1, Some(1), None, None, None), Cell(e2, Some(2), None, Some(0), None), Cell(e3, None, None, Some(1), None)]
  {
    var draws := [Draw(0, 0), Draw(0, 0)];
    var es := [e1, e2, e3];
    var b1 := Build(es, draws, 1);
    assert b1 == Builder([EmptyCell(e1)], 0);
    var b2 := Build(es, draws, 2);
    assert b2 == Attach(b1, e2, Draw(0, 0));
    assert FreeExits(EmptyCell(e1)) == [North, East, South, West];
    assert b2 == Builder([Cell(e1, Some(1), None, None, None), Cell(e2, None, None, Some(0), None)], 1);
    assert FreeExits(b2.rooms[1]) == [North, East, West];
  }
}
