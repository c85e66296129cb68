# Meetupside door, modelled in Dafny

Meetupside is a text-adventure server. Each client connection gets a maze of rooms,
one room per upcoming Meetup event. The player types commands to walk the maze and
look around. They can also step "down" into a mirror world ("the upside down"),
where the group's least-recently-active members are listed instead of the RSVPs.

This project models the three deterministic parts of `main.go`:

- **The room-graph builder** `getStartingRoom`, in `rooms.dfy`. Rooms are an arena
  (`seq<Cell>`), and an exit holds the index of the room it leads to. The builder's
  random draws are an explicit input. It is written twice:
  - an imperative method with a loop, like `getStartingRoom`;
  - a specification function (`Run`, which is `Build` over all the events; `Build`
    applies `Attach` once per event after the first) that the method is proved
    equal to.
  The lemmas establish the builder's loop invariant:
  - the current room always has a free exit;
  - links are write-once and opposite-consistent;
  - every room after the first has exactly one parent;
  - there are `2(n-1)` exit links.
  From these it follows that the result is a connected tree in which every room can
  be reached.
- **The session command loop** of `handleConnection`, in `session.dfy`:
  - `Parse`: the line normalisation and the keyword switch.
  - `Step`: a pure step function over a cursor (room index plus mirror flag) that
    yields the next cursor and a response, or a panic.
  - `Replay`: its fold over a session.
  - A `Session` class whose imperative `Dispatch`, `Handle` and `Serve` methods
    update the room and flag fields and are proved to agree with `Step` and `Replay`.
- **The presentation helpers**, in `people.dfy` and `session.dfy`:
  - the "people here" line of the normal view and the mirror view;
  - the LOOK exit list;
  - the `ByVisited` ordering with an in-place insertion sort over an `array`.
  The string helpers `strings.TrimSpace`, `strings.ToUpper`, `strings.Join` and the
  `%d` rendering are in `text.dfy`, and the event and member records in `meetup.dfy`.

Behaviour of the code worth noting:

- WHAT and LOOK ignore the mirror flag. They answer from the room's event even in
  the upside down.
- The mirror view slices `members[:10]` (main.go:106). The model takes the
  fetched slice's capacity to be its length, so fewer than ten members panic
  rather than showing a shorter list (see `People.MirrorMembers` under "Left
  out"). Because the panic is not recovered, it ends the session; in Go it ends
  the whole process (see `Session.Isolation` under "Left out").
- DOWN sets the flag before the mirror view is computed (main.go:256-258).
- The mirror list places its " and " before index `len(members)-1`. With more than
  ten members, no " and " appears at all (`People.MirrorPeopleShape`). Its
  " and N others" tail tests the event's RSVP counts, not the member list.
- The "others" count is the total RSVP count, not the number of people left out.
- `sort.Sort` is not a stable sort. The model's contracts promise only order by
  last visit and permutation.
- The builder's branch for a current room with no free exit cannot be taken
  (`Rooms.AttachShape`, `Rooms.RunInv`), so no room is ever left unlinked.
- The graph is built per connection (main.go:185). Moving copies the target cell,
  whose `UpsideDown` field is never set, so every successful move clears the
  mirror flag.

## Model

| member | source | states |
|---|---|---|
| Rooms.Opposite | main.go:144-155 | the back-link slot is the one the fixed table pairs with the chosen slot (N-S, E-W, S-N, W-E), and it is never the same slot |
| Rooms.Cell.WithExit | main.go:166-167 | setting one exit keeps the room's event and every other exit |
| Rooms.FreeExits | main.go:157-162 | the available directions are exactly the empty exits, in the scan order north, east, south, west, at most four |
| Rooms.OpenExits | main.go:202-214 | the linked exits, in the order north, east, south, west; together with the free exits they account for all four slots |
| Rooms.Intn | main.go:165 | a draw reduced by `rand.Intn(n)` is an index below `n` |
| Rooms.Attach | main.go:138-173 | one loop iteration adds exactly one room and leaves the current room inside the graph (the events the rooms hold are stated by `Rooms.AttachEvents`) |
| Rooms.Build | main.go:133-174 | after the first `k` events the builder holds exactly `k` rooms and its current room is one of them |
| Rooms.AttachEvents | main.go:138-139 | one iteration's new room holds the new event, and every earlier room keeps its event |
| Rooms.BuildEvents | main.go:133-174 | after the first `k` events, room `i` holds `events[i]` for every `i < k` |
| Rooms.Run | main.go:132-177 | the builder makes exactly one room per event and ends with its current room inside the graph |
| Rooms.RunShape | main.go:132-177 | for all events and draws, room `i` holds `events[i]` (so the root holds `events[0]`), links are in range and opposite-consistent, the rooms form a tree rooted at room 0, and there are `2(n-1)` linked exits |
| Rooms.GetStartingRoom | main.go:132-177 | the builder returns exactly the rooms `Run` describes: one room per event in order, opposite-consistent links inside the graph, a tree rooted at room 0, and `2(n-1)` linked exits |
| Rooms.BuildRooms | main.go:133-176 | the loop over `events[1:]`, updating the room list and the current room in place, ends with exactly the builder state `Run` describes |
| Rooms.AttachRoom | main.go:138-173 | one pass of the loop body on the room list and current room computes exactly one `Attach` step |
| Rooms.NewRoomDegree | main.go:138-167 | a fresh room given its back-link has exactly one linked exit |
| Rooms.ExitCountUpdate | main.go:166-167 | rewriting one room changes the graph's exit count by the change in that room's degree |
| Rooms.AttachLinks | main.go:157-168 | the new room is linked through an exit of the current room that was empty, the new room's opposite exit links back, the new room has no other link, and no existing link is overwritten |
| Rooms.AttachShape | main.go:164-173 | under the invariant the linking branch is always taken, and the current room stays current only when it had at least two free exits; otherwise the new room becomes current |
| Rooms.AttachInv | main.go:137-173 | one iteration preserves the loop invariant: links stay in range and opposite-consistent, each later room has one parent, the current room keeps a free exit, and there are `2(n-1)` exits |
| Rooms.AttachLinked | main.go:164-168 | linking a new room through an empty exit of the current room, with the back-link, keeps every link in range and opposite-consistent |
| Rooms.AttachTree | main.go:164-168 | after the same linking, every room after the first still has exactly one exit leading to an earlier room |
| Rooms.AttachCount | main.go:164-168 | the same linking adds exactly two linked exits to the graph |
| Rooms.FreeExitsOneLess | main.go:166 | filling one empty exit leaves exactly one free exit fewer |
| Rooms.RunInv | main.go:137-174 | for all events and draws, the invariant holds after the loop |
| Rooms.BuildInv | main.go:133-174 | the invariant holds before the loop and after every iteration |
| Rooms.Walk | main.go:224-251 | following linked exits from a room ends at a room of the graph |
| Rooms.ParentDir | main.go:164-168 | every room after the first has an exit to an earlier room |
| Rooms.AttachNewRoomLinks | main.go:157-168 | every link from the room an iteration appends to an earlier room leads to the current room |
| Rooms.AttachKeepsLinksBelow | main.go:157-168 | if every link from an existing room `k` to an earlier room leads to room `p`, that still holds after an iteration |
| Rooms.DownLinkToAttacher | main.go:157-172 | every link from room `k` to an earlier room leads to the room that was current when room `k` was attached; later iterations never change it |
| Rooms.ParentIsAttacher | main.go:164-172 | in the built graph, the exit of room `k` to an earlier room leads to the room it was attached from |
| Rooms.Reachable | main.go:132-177 | in a built graph, the path of parent links leads from the starting room to any room |
| Rooms.NoDeadEnds | main.go:164-168 | in a linked tree of two or more rooms, every room has at least one linked exit |
| Rooms.StraightLine | main.go:132-177 | three events, with draws that always take the first free exit and always advance, give a line of rooms running north with back-links south |
| Text.TrimSpace | main.go:195 | the trimmed string is no longer than the input and has no white space at either end |
| Text.TrimLeftShape | main.go:195 | left-trimming keeps a suffix, removes only white space, and stops at a non-space character |
| Text.TrimRightShape | main.go:195 | right-trimming keeps a prefix, removes only white space, and stops at a non-space character |
| Text.TrimSpaceSlice | main.go:195 | the trimmed string is a contiguous slice of the input, and everything cut off on either side is white space |
| Text.TrimSpacePadding | main.go:195 | white space added on either side does not change the trimmed result |
| Text.TrimSpaceIdempotent | main.go:195 | trimming twice is trimming once |
| Text.UpperChar | main.go:195 | white space is unchanged, a lower-case ASCII letter maps to its capital, and no result is a lower-case letter |
| Text.ToUpper | main.go:195 | upper-casing keeps the length and leaves no lower-case ASCII letter |
| Text.ToUpperIdempotent | main.go:195 | upper-casing twice is upper-casing once |
| Text.Normalize | main.go:195 | a normalised line has no white space at either end, and every character is already its own upper case |
| Text.NormalizeIdempotent | main.go:195 | normalising a normalised line changes nothing |
| Text.NormalizeIgnoresPaddingAndCase | main.go:195 | surrounding white space and letter case do not change a line's normal form |
| Text.Join | main.go:220 | joining one part gives that part, and joining none gives the empty string |
| Text.JoinLength | main.go:220 | the joined length is the parts' total length plus one separator between each two parts |
| Text.Digit | main.go:76 | a digit character's code minus that of '0' is its value |
| Text.NatToString | main.go:76 | `%d` of a non-negative count is a non-empty string of decimal digits without a leading zero |
| Text.DecimalRoundTrip | main.go:76 | reading the decimal rendering back gives the number |
| People.Trimmed | main.go:73 | one trimmed name per name |
| People.Listing | main.go:64-74 | the accumulated line is as long as the names plus a two-character ", " between each two names, three more when " and " takes the place of one of them |
| People.ListingShape | main.go:65-74 | the accumulated line is the names joined by ", ", with " and " before index `andAt` exactly when that index falls between two names |
| People.ListingAfterAndStep | main.go:65-74 | appending a name after the " and " adds ", " and the name to the tail of the list |
| People.RsvpNames | main.go:65 | one name per RSVP in the sample |
| People.Others | main.go:75-77 | the " and N others" tail is written exactly when the total count exceeds the sample, and the number it writes reads back as the total count |
| People.PeopleHere | main.go:64-77 | the normal view's people line: the listing of the trimmed RSVP names with " and " before index total-1, then the tail; its three forms are stated by `People.PeopleHereSample`, `People.PeopleHereComplete` and `People.PeopleHereNoAnd` |
| People.PeopleHereSample | main.go:64-77 | when the total count exceeds the sample, the line is the trimmed names joined by ", " followed by " and <total> others" |
| People.PeopleHereComplete | main.go:64-77 | when the sample covers the total (at least two), " and " stands before the name at index total-1, and no tail is added |
| People.PeopleHereNoAnd | main.go:64-77 | with a total of at most one, not above the sample size, the line is a plain comma list |
| People.Less | main.go:368 | `ByVisited.Less`: `a` was last seen strictly before `b`; its order properties are stated by `People.LessOrder` |
| People.LessOrder | main.go:368 | `Less` is a strict weak order, as `sort.Sort` needs: irreflexive, transitive, and members with equal last visits are interchangeable |
| People.Insert | main.go:364-368 | inserting a member into a list ordered by last visit keeps it ordered and adds exactly that member |
| People.SortByVisited | main.go:103 | the members reordered by last visit, earliest first: an ordered permutation of the input |
| People.Swap | main.go:367 | `ByVisited.Swap` exchanges two entries, leaves the rest alone, and keeps the multiset of members |
| People.Sort | main.go:103 | `sort.Sort(ByVisited(members))` in place leaves the array ordered by last visit and a permutation of what it held |
| People.SiftDown | main.go:103 | one insertion step extends the ordered prefix by one entry, permutes only the entries of that prefix, and leaves the entries after it unchanged |
| People.SwapDown | main.go:103 | one exchange inside the insertion step moves the sinking entry one place earlier, keeps both ordered runs around it, permutes only the prefix, and leaves the rest unchanged |
| People.SwapInPrefix | main.go:367 | exchanging two neighbours within the first `n` entries permutes those entries and leaves the rest alone |
| People.Names | main.go:114 | one name per member |
| People.MirrorMembers | main.go:102-106 | the members shown are the first ten after sorting; there are none (the slice panics) exactly when fewer than ten were fetched |
| People.MirrorShowsLeastRecent | main.go:103-106 | the mirror view shows ten members, ordered by last visit, drawn from the fetched list, and no member left out visited earlier than one shown |
| People.MirrorPeople | main.go:105-118 | the mirror people line exists exactly when at least ten members were fetched |
| People.MirrorPeopleShape | main.go:105-118 | with more than ten members, every separator is ", "; with exactly ten, " and " stands before the tenth name; the " and N others" tail follows either way |
| People.SortExample | main.go:364-368 | members last seen at 5, 1, 9 and 3 are sorted to the order 1, 3, 5, 9 |
| People.InsertExample | main.go:364-368 | inserting the member seen at 5 into the list seen at 1, 3, 9 places it third |
| People.SortExampleTail | main.go:364-368 | members seen at 1, 9 and 3 sort to 1, 3, 9 |
| Session.Lookup | main.go:195-281 | a normalised word selects a case only if it is one of that case's spellings, and falls to the default case exactly when it is no case's spelling |
| Session.Parse | main.go:195 | the case a line selects is one whose spelling its upper-cased, trimmed text is, and the default case exactly when that text is no case's spelling |
| Session.LookupSpellings | main.go:196-268 | every spelling selects its own case |
| Session.ToUpperFixed | main.go:195 | a word of capitals and question marks is unchanged by upper-casing |
| Session.TrimSpaceFixed | main.go:195 | a word with no white space at either end is unchanged by trimming |
| Session.SpellingChars | main.go:196-268 | every spelling of a case is a non-empty word of capital letters and question marks |
| Session.ParseSpellings | main.go:195-268 | each long form and its shorthand (HELP/?, LOOK/L, NORTH/N, EAST/E, SOUTH/S, WEST/W, DOWN/D, UP/U) select their case from a raw line |
| Session.ParseIgnoresPaddingAndCase | main.go:195 | surrounding white space and letter case do not change the selected case, and the empty line selects the default case |
| Session.ParsePadded | main.go:195 | a spelling in any letter case, padded with white space, selects its case |
| Session.ParseNorthLine | main.go:245 | the line "north" with its newline selects NORTH |
| Session.ParseSouthLine | main.go:238 | the line " s" selects SOUTH |
| Session.MirrorText | main.go:97-126 | the mirror view's text exists exactly when at least ten members were fetched |
| Session.DirName | main.go:203-214 | the name LOOK lists for an exit, upper-cased, is the long spelling of that direction's case |
| Session.ExitNameSelectsExit | main.go:203-251 | typing an exit name as LOOK lists it selects the move through that exit |
| Session.DirNameInjective | main.go:204-213 | the four exit names are pairwise different |
| Session.ExitNames | main.go:202-214 | one exit name per linked exit |
| Session.ExitNamesExact | main.go:202-214 | the LOOK exit names are exactly the names of the linked exits, each listed once |
| Session.LookText | main.go:201-223 | the LOOK response: the placard, the room's description, then the exit list or "There are no visible exits."; its two forms are stated by `Session.LookWithExits` and `Session.LookNoExits` |
| Session.LookWithExits | main.go:216-220 | a room with a linked exit shows its description and then the joined exit list |
| Session.LookNoExits | main.go:216-223 | a room without a linked exit shows its description and then "There are no visible exits." |
| Session.LookSingleRoom | main.go:132-223 | a maze built from one event is a single room without exits, where LOOK reports that there are none |
| Session.LookAlwaysShowsExits | main.go:201-223 | in a maze built from two or more events, LOOK in any room shows that room's event description and a non-empty exit list, never "There are no visible exits." |
| Session.DefaultText | main.go:79-80 | the normal view without its start-time line: "You're at " and the trimmed venue name, then the people line and " are here."; it is what `Session.SaveRescues` and `Session.StepRenders` show |
| Session.SaysText | main.go:199-200 | the WHAT line: the speaker's trimmed name, then "says" and an invitation naming the event; `Session.StepRenders` states that the speaker is an attendee of the room's sample |
| Session.Render | main.go:196-281 | every response renders to text except the HELP table and a mirror view over fewer than ten members |
| Session.Step | main.go:194-282 | a step that does not panic leaves the cursor on a room of the graph |
| Session.StepSummary | main.go:196-281 | only a direction moves the cursor, and only along a linked exit, clearing the mirror flag; only DOWN sets the flag; a step panics exactly when WHAT finds an empty RSVP sample or a mirror view has fewer than ten members |
| Session.MoveRoundTrip | main.go:224-251 | moving through a linked exit lands in the target room's normal view, and moving back through the opposite exit returns to the starting room in the normal view |
| Session.BlockedMove | main.go:224-251 | a direction whose exit is not linked answers "You can't go that way." and leaves the room and the mirror flag as they were |
| Session.MirrorTransitions | main.go:252-275 | DOWN from the normal view sets the flag, and DOWN when set is refused with the flag kept; UP and SAVE clear a set flag and are refused otherwise, with no change; none of them moves the room |
| Session.DownTwice | main.go:252-259 | a second DOWN is refused with "You can't go that way." and leaves the mirror flag set |
| Session.SaveRescues | main.go:268-272 | SAVE in the mirror view returns to the normal view of the same room and writes the rescue line followed by the room's view |
| Session.StaticCommands | main.go:196-223 | HELP, WHAT, LOOK and the default case never change the room or the mirror flag |
| Session.StepRenders | main.go:198-200 | a step either panics or writes a response that renders; a mirror view shows the current room's event; WHAT's speaker is an attendee from the room's RSVP sample |
| Session.Commands | main.go:191-195 | each line selects the case its normalised text names, in order |
| Session.Extend | main.go:190-285 | a loop pass after a panic changes nothing, and the cursor stays in the graph |
| Session.ExtendOutcome | main.go:194-283 | after passes that did not panic, the next pass panics or appends its response and moves the cursor |
| Session.Replay | main.go:190-285 | the loop writes one response per line until the first panic, and the cursor stays in the graph |
| Session.ReplaySnoc | main.go:190-285 | one more line extends the session's trace by one loop pass |
| Session.ReplayNext | main.go:190-285 | after lines that did not panic, the next line's step decides the trace: a panic ends it with the cursor kept, otherwise its response is appended and the cursor moves |
| Session.ReplayMove | main.go:224-251 | after lines that did not panic, a direction through a linked exit moves to the target and writes the target's view |
| Session.Moves | main.go:224-251 | one direction line per step of a path |
| Session.ReplayMoves | main.go:224-251 | typing the directions of a path whose exits are linked ends in the room the path leads to, without a panic |
| Session.EveryRoomReachable | main.go:132-251 | for any events and draws, the built maze is a linked tree, and every room can be reached by typing directions from the starting room |
| Session.NorthNorthSouthSouth | main.go:224-251 | in the straight-line maze, NORTH, NORTH, SOUTH, SOUTH visit the second, third, second and first rooms and end at the start in the normal view |
| Session.WalkLine | main.go:224-251 | the same walk over the explicit three-room line |
| Session.PanicSticks | main.go:190-193 | once a line has panicked, later lines change nothing |
| Session.Session.constructor | main.go:185 | accepting a connection builds the maze from the events and places the cursor in the first room, in the normal view |
| Session.Session.Handle | main.go:194-283 | one loop pass returns the step for the line's selected case, and the cursor becomes the step's cursor |
| Session.Session.Dispatch | main.go:196-282 | the switch updates the room and flag fields in place exactly as the step function says; a panic never moves the room |
| Session.Session.Serve | main.go:190-285 | the loop over a sequence of lines writes exactly the responses of the replay and stops at the first panic; when no line panicked, the final cursor is the replay's |
| Session.Isolation | main.go:179-185 | handling a line in one connection leaves every other connection's cursor unchanged |

## Left out

- `getMeetupEvents` and `getMeetupMembers` (main.go:327-402) are network fetches with JSON decoding. Their results are parameters: the event list, and the member list each mirror view reads (`Env.members`). In Go a failed member request or a failed decoding panics (main.go:383, 387, 396); the model has no such failure, so `Session.StepSummary`'s "panics exactly when" holds only for a fetch that returns a list.
- `main`, the TCP listener and the goroutine per connection (main.go:404-425) are not modelled. Each session is a separate object with no shared state. The guard that stops the server when there are no events (main.go:409-412) is why the builder requires a non-empty event list.
- Reading lines with `bufio`, the panic on a read error, and `writeString` (main.go:128-130, 191-192) are connection I/O. A session is a sequence of lines, and responses are returned instead of written.
- The colour wrappers of the `color` library are foreign code. Responses are plain text, and the "Entering the upside down..." and "Returning to the real world..." strings that are overwritten before being written (main.go:257, 263) do not appear.
- The start-time sentence of the room view (main.go:82-91) depends on the clock and Go's date formatting. `Session.DefaultText` stops after the people line.
- `rand.Seed` and the random generator (main.go:406) are not modelled. Every `rand.Intn` draw is an input number reduced modulo `n` (`Rooms.Draw`, `Env.whatPick`).
- The HELP table text (main.go:30-48) is a constant. The HELP response is the tag `HelpTable`, with no text.
- The "Entering Meetupside..." banner and the first room view written on connection (main.go:187-188) are output only and are not modelled.
- The people line is passed to a formatting function as its format string (main.go:80, 121). A `%` in a member's name would therefore be read as a verb; the model treats the line as literal text.
- `Text.UpperChar`: does not model the whole Unicode upper-case mapping of `unicode.ToUpper`, only the ASCII letters and the two non-ASCII letters whose capitals are ASCII (dotless i, long s), which are the only ones that can change which case is selected.
- `People.SortByVisited`: fixes one order (input order) among members with equal `visited` values, where `sort.Sort` promises none. `People.Sort` is the insertion sort Go uses for short slices; the pattern-defeating quicksort Go uses for longer ones is not modelled. Both promise only an ordered permutation, which is all the lemmas about the mirror view use.
- The record fields that the core does not read (ids of venues and groups, RSVP timestamps, venue addresses) are dropped from `Meetup.Event` and its parts.
- `People.MirrorMembers`: takes the capacity of the fetched member slice to be its length, so `members[:10]` panics exactly when fewer than ten members were fetched. In Go the bound is the capacity, which the JSON decoder sets (main.go:395) and which can exceed the length; the slice would then show zero-valued members with empty names. The capacity is chosen by the fetcher, which is not modelled. The empty fallback (main.go:391) has capacity zero and panics as modelled. `People.MirrorPeople` and `Session.MirrorText` use the same guard.
- `People.MirrorPeople`: inherits the length-for-capacity guard of `People.MirrorMembers`; its "exactly when at least ten members" is about the length.
- `Session.MirrorText`: inherits the same length-for-capacity guard; its "exactly when at least ten members" is about the length.
- `Text.ToUpper`: inherits the partial Unicode mapping of `Text.UpperChar`; it upper-cases only the letters that mapping covers.
- `Session.Isolation`: in Go an unrecovered panic in one connection's goroutine (WHAT on an empty RSVP sample, main.go:199, or the mirror slice, main.go:106) ends the whole process and so every other connection. The model ends only the session that panicked and lets every other session keep serving.
- `Rooms.Run`: requires a non-empty event list and one draw per later event, because `main` never calls the builder with no events and the draws stand for the generator.
- 64-bit integer bounds on counts and `visited` values are not modelled: integers are unbounded.
