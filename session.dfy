/** One client connection (`handleConnection`): the command switch that
    interprets each input line against the room graph, and the session cursor
    it moves: the current room and the mirror ("upside down") flag. */
module Session {
  import opened Meetup
  import opened Text
  import opened Rooms
  import opened People

  datatype Command = Help | What | Look | Go(dir: Dir) | Down | Up | Save | Other

  /** The spellings each case of the command switch accepts. */
  function Spellings(c: Command): set<string> {
    match c
    case Help => {"HELP", "?"}
    case What => {"WHAT"}
    case Look => {"LOOK", "L"}
    case Go(d) =>
      (match d
       case North => {"NORTH", "N"}
       case East => {"EAST", "E"}
       case South => {"SOUTH", "S"}
       case West => {"WEST", "W"})
    case Down => {"DOWN", "D"}
    case Up => {"UP", "U"}
    case Save => {"SAVE"}
    case Other => {}
  }

  /** The case of the command switch a normalised word selects. */
  function Lookup(w: string): (c: Command)
    ensures c != Other ==> w in Spellings(c)
    ensures c == Other ==> forall k :: w !in Spellings(k)
  {
    if w == "HELP" || w == "?" then Help
    else if w == "WHAT" then What
    else if w == "LOOK" || w == "L" then Look
    else if w == "EAST" || w == "E" then Go(East)
    else if w == "WEST" || w == "W" then Go(West)
    else if w == "SOUTH" || w == "S" then Go(South)
    else if w == "NORTH" || w == "N" then Go(North)
    else if w == "DOWN" || w == "D" then Down
    else if w == "UP" || w == "U" then Up
    else if w == "SAVE" then Save
    else Other
  }

  /** The case of the command switch an input line selects: the line is
      upper-cased and trimmed, then compared with the spellings of each case;
      anything else, the empty line included, selects the default case. */
  function Parse(line: string): (c: Command)
    ensures c != Other ==> Normalize(line) in Spellings(c)
    ensures c == Other <==> forall k :: Normalize(line) !in Spellings(k)
  {
    Lookup(Normalize(line))
  }

  /** Every spelling of a case selects that case. */
  lemma LookupSpellings(c: Command, w: string)
    requires w in Spellings(c)
    ensures Lookup(w) == c
  {
  }

  /** A word of capital letters and question marks is its own upper case. */
  lemma ToUpperFixed(w: string)
    requires forall i :: 0 <= i < |w| ==> 'A' <= w[i] <= 'Z' || w[i] == '?'
    ensures ToUpper(w) == w
  {
  }

  /** A string without white space at either end is its own trimmed form. */
  lemma TrimSpaceFixed(w: string)
    requires w != [] && !IsSpace(w[0]) && !IsSpace(w[|w| - 1])
    ensures TrimSpace(w) == w
  {
    assert TrimLeft(w) == w;
  }

  /** Every spelling is a non-empty word of capital letters and question marks. */
  lemma SpellingChars(c: Command, w: string)
    requires w in Spellings(c)
    ensures w != [] && forall i :: 0 <= i < |w| ==> 'A' <= w[i] <= 'Z' || w[i] == '?'
  {
  }

  /** Every spelling selects its own case, long forms and shorthands alike. */
  lemma ParseSpellings(c: Command, w: string)
    requires w in Spellings(c)
    ensures Parse(w) == c
  {
    SpellingChars(c, w);
    ToUpperFixed(w);
    TrimSpaceFixed(w);
    LookupSpellings(c, w);
  }

  /** White space around a line and the case of its letters do not change the case it selects;
      the empty line selects the default case. */
  lemma ParseIgnoresPaddingAndCase(a: string, line: string, b: string)
    requires AllSpace(a) && AllSpace(b)
    ensures Parse(a + line + b) == Parse(line)
    ensures Parse(ToUpper(line)) == Parse(line)
    ensures Parse("") == Other
  {
    NormalizeIgnoresPaddingAndCase(a, line, b);
    assert Normalize("") == "";
  }

  // ---------------------------------------------------------------------------
  // Responses

  /** What one line writes back. The views record the event shown (and, for the
      mirror view, the member list fetched for it); `Render` gives their text. */
  datatype Response =
    | HelpTable                                            // the command table
    | Says(speaker: Member, event: Event)                  // WHAT
    | Placard(room: Cell)                                  // LOOK
    | RoomView(event: Event)                               // `defaultResponse`
    | UpsideDownView(event: Event, members: seq<Member>)   // `upsideDownResponse`
    | Rescued(event: Event)                                // SAVE from the mirror view
    | CantGoThatWay
    | NoOneToSave

  /** `defaultResponse` without its start-time line: the venue, then who is there. */
  function DefaultText(e: Event): string {
    "You're at " + TrimSpace(e.venue.name) + ".\n" + PeopleHere(e) + " are here.\n"
  }

  /** `upsideDownResponse` for the given fetched members; none when there are fewer
      than ten of them to show. */
  function MirrorText(e: Event, members: seq<Member>): (t: Option<string>)
    ensures t.None? <==> |members| < 10
  {
    match MirrorPeople(e, members)
    case None => None
    case Some(people) =>
      Some("You're in the upside down " + TrimSpace(e.venue.name) + ".\n" + people + " are here and very inactive.\n")
  }

  /** The name LOOK lists for an exit; upper-cased it is the long spelling of
      that direction's case. */
  function DirName(d: Dir): (n: string)
    ensures ToUpper(n) in Spellings(Go(d))
  {
    match d
    case North => assert ToUpper("north") == "NORTH"; "north"
    case East => assert ToUpper("east") == "EAST"; "east"
    case South => assert ToUpper("south") == "SOUTH"; "south"
    case West => assert ToUpper("west") == "WEST"; "west"
  }

  /** Different exits have different names. */
  lemma DirNameInjective(a: Dir, b: Dir)
    ensures DirName(a) == DirName(b) ==> a == b
  {
    if a != b {
      assert DirName(a)[0] != DirName(b)[0];
    }
  }

  /** Typing an exit name the way LOOK lists it selects the move through that exit. */
  lemma ExitNameSelectsExit(d: Dir)
    ensures Parse(DirName(d)) == Go(d)
  {
    ParseIgnoresPaddingAndCase("", DirName(d), "");
    ParseSpellings(Go(d), ToUpper(DirName(d)));
  }

  /** The LOOK listing of exits: the names of the linked exits, in the order
      north, east, south, west. */
  function ExitNames(c: Cell): (r: seq<string>)
    ensures |r| == |OpenExits(c)|
  {
    var open := OpenExits(c);
    seq(|open|, i requires 0 <= i < |open| => DirName(open[i]))
  }

  /** The exit names listed are exactly the names of the linked exits, each once. */
  lemma ExitNamesExact(c: Cell)
    ensures var r := ExitNames(c);
      && (forall d :: DirName(d) in r <==> c.Exit(d).Some?)
      && (forall i, j :: 0 <= i < j < |r| ==> r[i] != r[j])
  {
    var open := OpenExits(c);
    var r := ExitNames(c);
    forall d ensures DirName(d) in r <==> d in open {
      if DirName(d) in r {
        var i :| 0 <= i < |r| && r[i] == DirName(d);
        DirNameInjective(open[i], d);
      }
      if d in open {
        var i :| 0 <= i < |open| && open[i] == d;
        assert r[i] == DirName(d);
      }
    }
    forall i, j | 0 <= i < j < |r| ensures r[i] != r[j] {
      DirNameInjective(open[i], open[j]);
    }
  }

  /** The LOOK response: the placard with the room's description, then the exits
      joined by ", ", or a line saying there are none. */
  function LookText(c: Cell): string {
    var names := ExitNames(c);
    "On a posted placard, you see the following text written in barely legible handwriting:\n" +
    c.current.description + "\n" +
    (if |names| > 0 then "\nYou can go in the following directions: " + Join(names, ", ") + "\n"
     else "\nThere are no visible exits.\n")
  }

  /** A room with a linked exit shows the list of exits on its placard. */
  lemma LookWithExits(c: Cell)
    requires OpenExits(c) != []
    ensures LookText(c) == "On a posted placard, you see the following text written in barely legible handwriting:\n" +
      c.current.description + "\n" + ("\nYou can go in the following directions: " + Join(ExitNames(c), ", ") + "\n")
  {
  }

  /** A room without a linked exit says so on its placard, after its description. */
  lemma LookNoExits(c: Cell)
    requires OpenExits(c) == []
    ensures LookText(c) == "On a posted placard, you see the following text written in barely legible handwriting:\n" +
      c.current.description + "\n" + "\nThere are no visible exits.\n"
  {
  }

  /** A maze built from a single event is one room with no exits, so LOOK there
      reports that there are none. */
  lemma LookSingleRoom(e: Event, draws: seq<Draw>)
    ensures var g := Run([e], draws).rooms;
      |g| == 1 && OpenExits(g[0]) == [] &&
      LookText(g[0]) == "On a posted placard, you see the following text written in barely legible handwriting:\n" +
        e.description + "\n" + "\nThere are no visible exits.\n"
  {
    var g := Run([e], draws).rooms;
    assert g == [EmptyCell(e)];
    LookNoExits(g[0]);
  }

  /** In a graph built from two or more events every room has an exit, so no LOOK
      reports that there are none. */
  lemma LookAlwaysShowsExits(events: seq<Event>, draws: seq<Draw>, i: nat)
    requires |events| >= 2 && |draws| >= |events| - 1 && i < |events|
    ensures var c := Run(events, draws).rooms[i];
      |ExitNames(c)| > 0 &&
      LookText(c) == "On a posted placard, you see the following text written in barely legible handwriting:\n" +
        c.current.description + "\n" + ("\nYou can go in the following directions: " + Join(ExitNames(c), ", ") + "\n")
  {
    var g := Run(events, draws).rooms;
    RunInv(events, draws);
    NoDeadEnds(g);
    assert OpenExits(g[i]) != [];
    LookWithExits(g[i]);
  }

  /** The WHAT line: a sampled attendee invites the player to the event. */
  function SaysText(m: Member, e: Event): string {
    TrimSpace(m.name) + " says: \"This is " + e.name + ". Care to join?\"\n"
  }

  /** The text a response writes, colour codes aside. There is none for a mirror
      view over fewer than ten members (the server panics instead) and none for
      the HELP table, whose text is not part of the model. */
  function Render(r: Response): (t: Option<string>)
    ensures t.None? <==> r.HelpTable? || (r.UpsideDownView? && |r.members| < 10)
  {
    match r
    case HelpTable => None
    case Says(m, e) => Some(SaysText(m, e))
    case Placard(c) => Some(LookText(c))
    case RoomView(e) => Some(DefaultText(e))
    case UpsideDownView(e, ms) => MirrorText(e, ms)
    case Rescued(e) => Some("Bringing them back to the real world!\n" + DefaultText(e))
    case CantGoThatWay => Some("You can't go that way.\n")
    case NoOneToSave => Some("People are already meeting up! There's no one here to save.\n")
  }

  // ---------------------------------------------------------------------------
  // The command switch as a step function

  /** The session cursor: the current room and whether the player is in the mirror view. */
  datatype Cursor = Cursor(room: nat, upsideDown: bool)

  /** What one command reads from outside: the draw for WHAT's `rand.Intn`, and the
      member list the mirror view would fetch. */
  datatype Env = Env(whatPick: nat, members: seq<Member>)

  /** The result of one line: the new cursor and the response, or a panic (an
      empty RSVP sample for WHAT, fewer than ten members for the mirror view). */
  datatype Outcome = Next(cursor: Cursor, response: Response) | Panic

  /** One pass through the body of the session loop, for the case `c` of the switch. */
  function Step(g: Graph, cur: Cursor, c: Command, env: Env): (o: Outcome)
    requires cur.room < |g| && InRange(g)
    ensures o.Next? ==> o.cursor.room < |g|
  {
    var e := g[cur.room].current;
    match c
    case Help => Next(cur, HelpTable)
    case What =>
      if |e.rsvps| == 0 then Panic
      else Next(cur, Says(e.rsvps[Intn(env.whatPick, |e.rsvps|)].member, e))
    case Look => Next(cur, Placard(g[cur.room]))
    case Go(d) =>
      (match g[cur.room].Exit(d)
       case Some(t) => Next(Cursor(t, false), RoomView(g[t].current))
       case None => Next(cur, CantGoThatWay))
    case Down =>
      if cur.upsideDown then Next(cur, CantGoThatWay)
      else if |env.members| < 10 then Panic
      else Next(Cursor(cur.room, true), UpsideDownView(e, env.members))
    case Up =>
      if cur.upsideDown then Next(Cursor(cur.room, false), RoomView(e))
      else Next(cur, CantGoThatWay)
    case Save =>
      if cur.upsideDown then Next(Cursor(cur.room, false), Rescued(e))
      else Next(cur, NoOneToSave)
    case Other =>
      if !cur.upsideDown then Next(cur, RoomView(e))
      else if |env.members| < 10 then Panic
      else Next(cur, UpsideDownView(e, env.members))
  }

  /** What one command can do to the cursor: only a direction moves it, and only
      along a linked exit, landing in the normal view; only DOWN enters the mirror
      view. A command panics exactly when WHAT finds no RSVP to sample or a mirror
      view has fewer than ten members to show. */
  lemma StepSummary(g: Graph, cur: Cursor, c: Command, env: Env)
    requires cur.room < |g| && InRange(g)
    ensures var o := Step(g, cur, c, env);
      && (o.Next? && o.cursor.room != cur.room ==>
        c.Go? && g[cur.room].Exit(c.dir) == Some(o.cursor.room) && !o.cursor.upsideDown)
      && (o.Next? && o.cursor.upsideDown && !cur.upsideDown ==> c == Down)
      && (o.Panic? <==>
        (c == What && g[cur.room].current.rsvps == []) ||
        (|env.members| < 10 && ((c == Down && !cur.upsideDown) || (c == Other && cur.upsideDown))))
  {
  }

  /** Going through an exit and back through the opposite one returns to the room
      one started from, in the normal view, and shows it again. */
  lemma MoveRoundTrip(g: Graph, cur: Cursor, d: Dir, env: Env)
    requires cur.room < |g| && Linked(g) && g[cur.room].Exit(d).Some?
    ensures var o := Step(g, cur, Go(d), env);
      && o == Next(Cursor(g[cur.room].Exit(d).value, false), RoomView(g[g[cur.room].Exit(d).value].current))
      && Step(g, o.cursor, Go(Opposite(d)), env) == Next(Cursor(cur.room, false), RoomView(g[cur.room].current))
  {
  }

  /** A direction whose exit is not linked is refused, and the cursor, mirror flag
      included, stays as it was. */
  lemma BlockedMove(g: Graph, cur: Cursor, d: Dir, env: Env)
    requires cur.room < |g| && InRange(g) && g[cur.room].Exit(d).None?
    ensures Step(g, cur, Go(d), env) == Next(cur, CantGoThatWay)
  {
  }

  /** The mirror flag: DOWN enters the mirror view (when the member list can be
      shown) and is refused when already there; UP and SAVE leave it and are
      refused in the normal view. None of them changes the room. */
  lemma MirrorTransitions(g: Graph, cur: Cursor, c: Command, env: Env)
    requires cur.room < |g| && InRange(g)
    ensures var o := Step(g, cur, c, env);
      && (c == Down && !cur.upsideDown && |env.members| >= 10 ==> o.Next? && o.cursor == Cursor(cur.room, true))
      && (c == Down && cur.upsideDown ==> o == Next(cur, CantGoThatWay))
      && (c == Up && cur.upsideDown ==> o.Next? && o.cursor == Cursor(cur.room, false))
      && (c == Up && !cur.upsideDown ==> o == Next(cur, CantGoThatWay))
      && (c == Save && cur.upsideDown ==> o.Next? && o.cursor == Cursor(cur.room, false))
      && (c == Save && !cur.upsideDown ==> o == Next(cur, NoOneToSave))
  {
  }

  /** DOWN twice: the first enters the mirror view, the second is refused and leaves it set. */
  lemma DownTwice(g: Graph, cur: Cursor, env: Env)
    requires cur.room < |g| && InRange(g) && !cur.upsideDown && |env.members| >= 10
    ensures var o := Step(g, cur, Down, env);
      o.Next? && o.cursor.upsideDown && Step(g, o.cursor, Down, env) == Next(o.cursor, CantGoThatWay)
  {
  }

  /** SAVE from the mirror view brings the player back to the normal view of the same room. */
  lemma SaveRescues(g: Graph, cur: Cursor, env: Env)
    requires cur.room < |g| && InRange(g) && cur.upsideDown
    ensures var o := Step(g, cur, Save, env);
      o == Next(Cursor(cur.room, false), Rescued(g[cur.room].current)) &&
      Render(o.response) == Some("Bringing them back to the real world!\n" + DefaultText(g[cur.room].current))
  {
  }

  /** HELP, WHAT, LOOK and the default case never move the cursor or change the flag. */
  lemma StaticCommands(g: Graph, cur: Cursor, c: Command, env: Env)
    requires cur.room < |g| && InRange(g)
    requires c in {Help, What, Look, Other}
    ensures Step(g, cur, c, env).Next? ==> Step(g, cur, c, env).cursor == cur
  {
  }

  /** A command either panics or writes a response that renders: every mirror
      view the session emits has at least ten members to show, and WHAT's speaker
      comes from the current event's RSVP sample. */
  lemma StepRenders(g: Graph, cur: Cursor, c: Command, env: Env)
    requires cur.room < |g| && InRange(g)
    ensures var o := Step(g, cur, c, env);
      && (o.Next? && !o.response.HelpTable? ==> Render(o.response).Some?)
      && (o.Next? && o.response.UpsideDownView? ==> o.response.event == g[cur.room].current)
      && (o.Next? && o.response.Says? ==>
        exists k :: 0 <= k < |g[cur.room].current.rsvps| && o.response.speaker == g[cur.room].current.rsvps[k].member)
  {
    var o := Step(g, cur, c, env);
    if o.Next? && o.response.Says? {
      var e := g[cur.room].current;
      var k := Intn(env.whatPick, |e.rsvps|);
      assert o.response.speaker == e.rsvps[k].member;
    }
  }

  // ---------------------------------------------------------------------------
  // A session as a sequence of commands

  datatype Input = Input(command: Command, env: Env)

  /** A line as the client sends it, with what its command reads from outside. */
  datatype Line = Line(text: string, env: Env)

  /** The commands a sequence of lines selects. */
  function Commands(lines: seq<Line>): (ins: seq<Input>)
    ensures |ins| == |lines|
    ensures forall i :: 0 <= i < |lines| ==> ins[i] == Input(Parse(lines[i].text), lines[i].env)
  {
    seq(|lines|, i requires 0 <= i < |lines| => Input(Parse(lines[i].text), lines[i].env))
  }

  /** What a session has produced after some commands: the cursor, the responses
      written, and whether the last command panicked (which ends everything). */
  datatype Trace = Trace(cursor: Cursor, responses: seq<Response>, panicked: bool)

  /** A trace extended by one more command. */
  function Extend(g: Graph, t: Trace, last: Input): (t': Trace)
    requires t.cursor.room < |g| && InRange(g)
    ensures t'.cursor.room < |g|
    ensures t.panicked ==> t' == t
  {
    if t.panicked then t
    else
      match Step(g, t.cursor, last.command, last.env)
      case Panic => Trace(t.cursor, t.responses, true)
      case Next(c, r) => Trace(c, t.responses + [r], false)
  }

  /** After commands that did not panic, the next command's outcome decides the trace. */
  lemma ExtendOutcome(g: Graph, t: Trace, x: Input)
    requires t.cursor.room < |g| && InRange(g) && !t.panicked
    ensures var o := Step(g, t.cursor, x.command, x.env);
      Extend(g, t, x) == if o.Panic? then Trace(t.cursor, t.responses, true) else Trace(o.cursor, t.responses + [o.response], false)
  {
  }

  /** The session loop run over `inputs`, stopping at the first panic. */
  function Replay(g: Graph, start: Cursor, inputs: seq<Input>): (t: Trace)
    requires start.room < |g| && InRange(g)
    ensures t.cursor.room < |g|
    ensures |t.responses| <= |inputs| && (!t.panicked ==> |t.responses| == |inputs|)
    decreases |inputs|
  {
    if inputs == [] then Trace(start, [], false)
    else Extend(g, Replay(g, start, inputs[..|inputs| - 1]), inputs[|inputs| - 1])
  }

  /** Replaying one more command extends the trace of the commands before it. */
  lemma ReplaySnoc(g: Graph, start: Cursor, inputs: seq<Input>, x: Input)
    requires start.room < |g| && InRange(g)
    ensures Replay(g, start, inputs + [x]) == Extend(g, Replay(g, start, inputs), x)
  {
    assert (inputs + [x])[..|inputs|] == inputs;
  }

  /** After a prefix of `inputs` that did not panic, the next command's outcome
      decides the trace of the prefix one longer. */
  lemma ReplayNext(g: Graph, start: Cursor, inputs: seq<Input>, k: nat)
    requires start.room < |g| && InRange(g) && k < |inputs|
    requires !Replay(g, start, inputs[..k]).panicked
    ensures var t := Replay(g, start, inputs[..k]);
      var o := Step(g, t.cursor, inputs[k].command, inputs[k].env);
      Replay(g, start, inputs[..k + 1]) ==
        if o.Panic? then Trace(t.cursor, t.responses, true) else Trace(o.cursor, t.responses + [o.response], false)
  {
    assert inputs[..k + 1] == inputs[..k] + [inputs[k]];
    ReplaySnoc(g, start, inputs[..k], inputs[k]);
    ExtendOutcome(g, Replay(g, start, inputs[..k]), inputs[k]);
  }

  /** A direction through a linked exit, after commands that did not panic, moves
      the cursor to the target room and appends that room's description. */
  lemma ReplayMove(g: Graph, start: Cursor, inputs: seq<Input>, d: Dir, env: Env)
    requires start.room < |g| && InRange(g)
    requires var t := Replay(g, start, inputs); !t.panicked && g[t.cursor.room].Exit(d).Some?
    ensures var t := Replay(g, start, inputs);
      var r := g[t.cursor.room].Exit(d).value;
      Replay(g, start, inputs + [Input(Go(d), env)]) == Trace(Cursor(r, false), t.responses + [RoomView(g[r].current)], false)
  {
    ReplaySnoc(g, start, inputs, Input(Go(d), env));
  }

  /** The inputs that walk the directions of `path`. */
  function Moves(path: seq<Dir>, env: Env): (ins: seq<Input>)
    ensures |ins| == |path|
  {
    seq(|path|, i requires 0 <= i < |path| => Input(Go(path[i]), env))
  }

  /** Walking a path whose exits are all linked ends where `Walk` says. */
  lemma {:induction false} ReplayMoves(g: Graph, start: Cursor, path: seq<Dir>, env: Env)
    requires start.room < |g| && InRange(g) && Walk(g, start.room, path).Some?
    ensures var t := Replay(g, start, Moves(path, env));
      !t.panicked && t.cursor.room == Walk(g, start.room, path).value
    decreases |path|
  {
    if path != [] {
      var n := |path|;
      assert Moves(path, env)[..n - 1] == Moves(path[..n - 1], env);
      ReplayMoves(g, start, path[..n - 1], env);
    }
  }

  /** Every room the builder creates can be reached from the starting room by
      typing directions. */
  lemma EveryRoomReachable(events: seq<Event>, draws: seq<Draw>, i: nat, env: Env)
    requires |events| > 0 && |draws| >= |events| - 1 && i < |events|
    ensures var g := Run(events, draws).rooms;
      Linked(g) && Tree(g) && Replay(g, Cursor(0, false), Moves(PathFromRoot(g, i), env)).cursor.room == i
  {
    var g := Run(events, draws).rooms;
    RunInv(events, draws);
    Reachable(g, i);
    ReplayMoves(g, Cursor(0, false), PathFromRoot(g, i), env);
  }

  /** A spelling of a case in any letter case, padded with white space, selects that case. */
  lemma ParsePadded(a: string, w: string, b: string, c: Command)
    requires AllSpace(a) && AllSpace(b) && ToUpper(w) in Spellings(c)
    ensures Parse(a + w + b) == c
  {
    ParseIgnoresPaddingAndCase(a, w, b);
    ParseSpellings(c, ToUpper(w));
  }

  /** Typed lines as a client sends them: lower case with a newline, and a
      shorthand after a blank, select the directions. */
  lemma ParseNorthLine()
    ensures Parse("north\n") == Go(North)
  {
    assert ToUpper("north") == "NORTH";
    ParsePadded("", "north", "\n", Go(North));
    assert "" + "north" + "\n" == "north\n";
  }

  lemma ParseSouthLine()
    ensures Parse(" s") == Go(South)
  {
    assert ToUpper("s") == "S";
    ParsePadded(" ", "s", "", Go(South));
    assert " " + "s" + "" == " s";
  }

  /** Three events laid out in a straight line running north: NORTH, NORTH, SOUTH,
      SOUTH from the first room visits the second, the third, the second and the
      first again. */
  lemma NorthNorthSouthSouth(e1: Event, e2: Event, e3: Event, env: Env)
    ensures var g := Run([e1, e2, e3], [Draw(0, 0), Draw(0, 0)]).rooms;
      InRange(g) &&
      var t := Replay(g, Cursor(0, false),
        [Input(Go(North), env), Input(Go(North), env), Input(Go(South), env), Input(Go(South), env)]);
      && !t.panicked && t.cursor == Cursor(0, false)
      && t.responses == [RoomView(e2), RoomView(e3), RoomView(e2), RoomView(e1)]
  {
    StraightLine(e1, e2, e3);
    WalkLine(e1, e2, e3, env);
  }

  lemma WalkLine(e1: Event, e2: Event, e3: Event, env: Env)
    ensures var g := [Cell(e1, Some(1), None, None, None), Cell(e2, Some(2), None, Some(0), None), Cell(e3, None, None, Some(1), None)];
      InRange(g) &&
      var t := Replay(g, Cursor(0, false),
        [Input(Go(North), env), Input(Go(North), env), Input(Go(South), env), Input(Go(South), env)]);
      && !t.panicked && t.cursor == Cursor(0, false)
      && t.responses == [RoomView(e2), RoomView(e3), RoomView(e2), RoomView(e1)]
  {
    var g := [Cell(e1, Some(1), None, None, None), Cell(e2, Some(2), None, Some(0), None), Cell(e3, None, None, Some(1), None)];
    assert InRange(g);
    var n := Input(Go(North), env);
    var s := Input(Go(South), env);
    var c0 := Cursor(0, false);
    var v1, v2, v3 := RoomView(e1), RoomView(e2), RoomView(e3);
    assert Replay(g, c0, []) == Trace(c0, [], false);
    ReplayMove(g, c0, [], North, env);
    assert [] + [n] == [n] && [] + [v2] == [v2];
    ReplayMove(g, c0, [n], North, env);
    ReplayMove(g, c0, [n, n], South, env);
    assert [n, n] + [s] == [n, n, s];
    ReplayMove(g, c0, [n, n, s], South, env);
    assert [n, n, s] + [s] == [n, n, s, s];
  }

  /** Once a panic has ended the session, later commands change nothing. */
  lemma {:induction false} PanicSticks(g: Graph, start: Cursor, inputs: seq<Input>, k: nat)
    requires start.room < |g| && InRange(g) && k <= |inputs|
    requires Replay(g, start, inputs[..k]).panicked
    ensures Replay(g, start, inputs) == Replay(g, start, inputs[..k])
    decreases |inputs|
  {
    if k < |inputs| {
      var n := |inputs|;
      assert inputs[..n - 1][..k] == inputs[..k];
      PanicSticks(g, start, inputs[..n - 1], k);
    } else {
      assert inputs[..k] == inputs;
    }
  }

  // ---------------------------------------------------------------------------
  // The connection handler

  /** One client's session: a graph of its own, built when the connection is
      accepted, and the cursor the command loop moves. */
  class Session {
    const graph: Graph
    var room: nat
    var upsideDown: bool

    ghost predicate Valid()
      reads this
    {
      InRange(graph) && room < |graph|
    }

    /** Accepting a connection: the rooms are built from the events and the
        cursor starts in the first room, in the normal view. */
    constructor (events: seq<Event>, draws: seq<Draw>)
      requires |events| > 0 && |draws| >= |events| - 1
      ensures Valid()
      ensures graph == Run(events, draws).rooms && Linked(graph) && Tree(graph)
      ensures room == 0 && !upsideDown
    {
      var rooms := GetStartingRoom(events, draws);
      graph := rooms;
      room := 0;
      upsideDown := false;
    }

    /** One pass through the loop body: select the case for the line, write the
        response and update the cursor. */
    method Handle(line: string, env: Env) returns (o: Outcome)
      requires Valid()
      modifies this
      ensures Valid()
      ensures o == Step(graph, old(Cursor(room, upsideDown)), Parse(line), env)
      ensures o.Next? ==> Cursor(room, upsideDown) == o.cursor
      ensures o.Panic? ==> room == old(room)
    {
      var c := Parse(line);
      o := Dispatch(c, env);
    }

    /** The switch itself, on the selected case. */
    method Dispatch(c: Command, env: Env) returns (o: Outcome)
      requires Valid()
      modifies this
      ensures Valid()
      ensures o == Step(graph, old(Cursor(room, upsideDown)), c, env)
      ensures o.Next? ==> Cursor(room, upsideDown) == o.cursor
      ensures o.Panic? ==> room == old(room)
    {
      var e := graph[room].current;
      match c {
        case Help =>
          o := Next(Cursor(room, upsideDown), HelpTable);
        case What =>
          if |e.rsvps| == 0 {
            o := Panic;
          } else {
            o := Next(Cursor(room, upsideDown), Says(e.rsvps[Intn(env.whatPick, |e.rsvps|)].member, e));
          }
        case Look =>
          o := Next(Cursor(room, upsideDown), Placard(graph[room]));
        case Go(d) =>
          var target := graph[room].Exit(d);
          if target.Some? {
            room := target.value;
            upsideDown := false;
            o := Next(Cursor(room, upsideDown), RoomView(graph[room].current));
          } else {
            o := Next(Cursor(room, upsideDown), CantGoThatWay);
          }
        case Down =>
          if upsideDown {
            o := Next(Cursor(room, upsideDown), CantGoThatWay);
          } else {
            upsideDown := true;
            if |env.members| < 10 {
              o := Panic;
            } else {
              o := Next(Cursor(room, upsideDown), UpsideDownView(e, env.members));
            }
          }
        case Up =>
          if upsideDown {
            upsideDown := false;
            o := Next(Cursor(room, upsideDown), RoomView(e));
          } else {
            o := Next(Cursor(room, upsideDown), CantGoThatWay);
          }
        case Save =>
          if upsideDown {
            upsideDown := false;
            o := Next(Cursor(room, upsideDown), Rescued(e));
          } else {
            o := Next(Cursor(room, upsideDown), NoOneToSave);
          }
        case Other =>
          if !upsideDown {
            o := Next(Cursor(room, upsideDown), RoomView(e));
          } else if |env.members| < 10 {
            o := Panic;
          } else {
            o := Next(Cursor(room, upsideDown), UpsideDownView(e, env.members));
          }
      }
    }

    /** The session loop over a sequence of lines: each response in order, until a
        line panics. */
    method Serve(lines: seq<Line>) returns (responses: seq<Response>, panicked: bool)
      requires Valid()
      modifies this
      ensures Valid()
      ensures var t := Replay(graph, old(Cursor(room, upsideDown)), Commands(lines));
        responses == t.responses && panicked == t.panicked && (!panicked ==> Cursor(room, upsideDown) == t.cursor)
    {
      ghost var start := Cursor(room, upsideDown);
      ghost var inputs := Commands(lines);
      responses, panicked := [], false;
      var k := 0;
      while k < |lines| && !panicked
        invariant 0 <= k <= |lines| && Valid()
        invariant var t := Replay(graph, start, inputs[..k]);
          responses == t.responses && panicked == t.panicked && (!panicked ==> Cursor(room, upsideDown) == t.cursor)
      {
        var c := Parse(lines[k].text);
        assert inputs[k] == Input(c, lines[k].env);
        ReplayNext(graph, start, inputs, k);
        var o := Dispatch(c, lines[k].env);
        match o {
          case Panic => panicked := true;
          case Next(_, r) => responses := responses + [r];
        }
        k := k + 1;
      }
      if panicked {
        PanicSticks(graph, start, inputs, k);
      } else {
        assert inputs[..k] == inputs;
      }
    }
  }

  /** Two sessions share nothing: one handling a line leaves the other's cursor alone. */
  method Isolation(a: Session, b: Session, line: string, env: Env) returns (o: Outcome)
    requires a != b && a.Valid() && b.Valid()
    modifies a
    ensures b.room == old(b.room) && b.upsideDown == old(b.upsideDown)
    ensures o == Step(a.graph, old(Cursor(a.room, a.upsideDown)), Parse(line), env)
  {
    o := a.Handle(line, env);
  }
}
