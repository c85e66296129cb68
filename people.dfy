/** The "who is here" lines of a room's two views: the RSVP listing of the
    normal view (`defaultResponse`) and the least-recently-visiting members of
    the mirror view (`upsideDownResponse`), with the `ByVisited` ordering. */
module People {
  import opened Meetup
  import opened Text

  function Trimmed(names: seq<string>): (t: seq<string>)
    ensures |t| == |names|
  {
    seq(|names|, i requires 0 <= i < |names| => TrimSpace(names[i]))
  }

  /** The loop that accumulates the people line, over the names already
      trimmed: the names in order; the separator before the name at index `i > 0`
      is " and " when `i == andAt` and ", " otherwise. */
  function Listing(parts: seq<string>, andAt: int): (r: string)
    ensures parts != [] ==>
      |r| == SumLengths(parts) + 2 * (|parts| - 1) + (if 0 < andAt < |parts| then 3 else 0)
    decreases |parts|
  {
    if parts == [] then ""
    else
      var i := |parts| - 1;
      Listing(parts[..i], andAt) + (if i == 0 then "" else if i == andAt then " and " else ", ") + parts[i]
  }

  /** The listing is the comma-joined names, with " and " in place of the comma
      before index `andAt` when that index falls between two names. */
  lemma {:induction false} ListingShape(parts: seq<string>, andAt: int)
    ensures 0 < andAt < |parts| ==>
      Listing(parts, andAt) == Join(parts[..andAt], ", ") + " and " + Join(parts[andAt..], ", ")
    ensures !(0 < andAt < |parts|) ==> Listing(parts, andAt) == Join(parts, ", ")
    decreases |parts|
  {
    if parts != [] {
      var i := |parts| - 1;
      ListingShape(parts[..i], andAt);
      if andAt == i && i > 0 {
        assert parts[..i][..andAt] == parts[..andAt];
        assert parts[andAt..] == [parts[andAt]];
      } else if 0 < andAt < i {
        ListingAfterAndStep(parts, andAt);
      } else if i == 0 {
        assert parts[..i] == [];
      }
    }
  }

  /** The step of `ListingShape` that appends a name somewhere after the " and ". */
  lemma ListingAfterAndStep(parts: seq<string>, andAt: int)
    requires 0 < andAt < |parts| - 1
    requires var t := parts[..|parts| - 1];
      Listing(t, andAt) == Join(t[..andAt], ", ") + " and " + Join(t[andAt..], ", ")
    ensures Listing(parts, andAt) == Join(parts[..andAt], ", ") + " and " + Join(parts[andAt..], ", ")
  {
    var t := parts;
    var i := |parts| - 1;
    var mid := t[andAt..i];
    assert t[..i][..andAt] == t[..andAt];
    assert t[..i][andAt..] == mid;
    assert t[andAt..][..|t[andAt..]| - 1] == mid;
    var head := Join(t[..andAt], ", ");
    calc {
      Listing(t, andAt);
      Listing(t[..i], andAt) + ", " + t[i];
      head + " and " + Join(mid, ", ") + ", " + t[i];
      head + " and " + (Join(mid, ", ") + ", " + t[i]);
      head + " and " + Join(t[andAt..], ", ");
    }
  }

  function RsvpNames(e: Event): (names: seq<string>)
    ensures |names| == |e.rsvps|
  {
    seq(|e.rsvps|, i requires 0 <= i < |e.rsvps| => e.rsvps[i].member.name)
  }

  /** The " and <count> others" tail, written when the sample is smaller than the
      total count; the number is the total count, not the remainder. */
  function Others(e: Event): (t: string)
    ensures t == [] <==> e.rsvpCount <= |e.rsvps|
    ensures t != [] ==> |t| > 12 && t[..5] == " and " && t[|t| - 7..] == " others"
    ensures t != [] ==> var n := t[5..|t| - 7];
      (forall i :: 0 <= i < |n| ==> '0' <= n[i] <= '9') && DecimalValue(n) == e.rsvpCount
  {
    if e.rsvpCount > |e.rsvps| then
      var n := NatToString(e.rsvpCount);
      DecimalRoundTrip(e.rsvpCount);
      var t := " and " + n + " others";
      assert t[5..|t| - 7] == n;
      t
    else ""
  }

  /** The people line of the normal view. */
  function PeopleHere(e: Event): string {
    Listing(Trimmed(RsvpNames(e)), e.rsvpCount - 1) + Others(e)
  }

  /** A sample smaller than the total count gives a plain comma list followed by
      " and <total> others". */
  lemma PeopleHereSample(e: Event)
    requires e.rsvpCount > |e.rsvps|
    ensures PeopleHere(e) == Join(Trimmed(RsvpNames(e)), ", ") + " and " + NatToString(e.rsvpCount) + " others"
  {
    var t := Trimmed(RsvpNames(e));
    ListingShape(t, e.rsvpCount - 1);
    var n := NatToString(e.rsvpCount);
    assert Others(e) == " and " + n + " others";
    Reassociate(Join(t, ", "), " and ", n, " others");
  }

  /** A proof step, not a property of the program: the regrouping of four
      concatenated strings that `PeopleHereSample` needs, stated once so that the
      proof does not have to search the other groupings. */
  lemma Reassociate(a: string, b: string, c: string, d: string)
    ensures a + (b + c + d) == a + b + c + d
  {
  }

  /** Otherwise " and " stands before the name at index total - 1, which is the
      last name when the sample is complete, and no tail is added. */
  lemma PeopleHereComplete(e: Event)
    requires 2 <= e.rsvpCount <= |e.rsvps|
    ensures var t := Trimmed(RsvpNames(e)); var c := e.rsvpCount;
      PeopleHere(e) == Join(t[..c - 1], ", ") + " and " + Join(t[c - 1..], ", ")
  {
    ListingShape(Trimmed(RsvpNames(e)), e.rsvpCount - 1);
  }

  /** A total count of at most one, not above the sample size, gives a plain comma list. */
  lemma PeopleHereNoAnd(e: Event)
    requires e.rsvpCount <= 1 && e.rsvpCount <= |e.rsvps|
    ensures PeopleHere(e) == Join(Trimmed(RsvpNames(e)), ", ")
  {
    var t := Trimmed(RsvpNames(e));
    ListingShape(t, e.rsvpCount - 1);
    assert Others(e) == [];
    assert PeopleHere(e) == Listing(t, e.rsvpCount - 1) + [];
  }

  // ---------------------------------------------------------------------------
  // The ByVisited ordering

  /** `ByVisited.Less`: `a` was last seen before `b`. */
  predicate Less(a: Member, b: Member) {
    a.groupProfile.visited < b.groupProfile.visited
  }

  /** `Less` is a strict weak order, as `sort.Sort` requires: irreflexive,
      transitive, and members that are not ordered either way (equal last
      visits) are interchangeable. */
  lemma LessOrder(a: Member, b: Member, c: Member)
    ensures !Less(a, a)
    ensures Less(a, b) && Less(b, c) ==> Less(a, c)
    ensures !Less(a, b) && !Less(b, a) ==> (Less(a, c) <==> Less(b, c)) && (Less(c, a) <==> Less(c, b))
  {
  }

  /** Ordered as `sort.Sort(ByVisited(...))` leaves it: no member is less than one before it. */
  predicate SortedByVisited(s: seq<Member>) {
    forall i, j :: 0 <= i < j < |s| ==> !Less(s[j], s[i])
  }

  function Insert(m: Member, s: seq<Member>): (r: seq<Member>)
    requires SortedByVisited(s)
    ensures |r| == |s| + 1 && multiset(r) == multiset(s) + multiset{m}
    ensures SortedByVisited(r)
  {
    if s == [] || !Less(s[0], m) then
      SortedCons(m, s);
      [m] + s
    else
      assert s == [s[0]] + s[1..];
      var rest := Insert(m, s[1..]);
      MultisetBound(rest, s[1..], m, s[0]);
      SortedCons(s[0], rest);
      [s[0]] + rest
  }

  /** Putting a member in front of an ordered list keeps it ordered when no member
      of the list is less than it. */
  lemma SortedCons(a: Member, t: seq<Member>)
    requires SortedByVisited(t)
    requires t == [] || !Less(t[0], a)
    ensures SortedByVisited([a] + t)
  {
    var r := [a] + t;
    forall i, j | 0 <= i < j < |r|
      ensures !Less(r[j], r[i])
    {
      assert r[j] == t[j - 1];
      if i > 0 {
        assert r[i] == t[i - 1];
      } else {
        assert !Less(t[j - 1], t[0]);
      }
    }
  }

  /** A bound that holds for every member of `s` and for `m` holds for every member
      of a list holding exactly those members. */
  lemma MultisetBound(r: seq<Member>, s: seq<Member>, m: Member, a: Member)
    requires multiset(r) == multiset(s) + multiset{m}
    requires SortedByVisited([a] + s) && !Less(m, a)
    ensures r == [] || !Less(r[0], a)
  {
    if r != [] {
      assert r[0] in multiset(r);
      if r[0] != m {
        assert r[0] in multiset(s);
        var k :| 0 <= k < |s| && s[k] == r[0];
        assert ([a] + s)[k + 1] == r[0] && ([a] + s)[0] == a;
      }
    }
  }

  /** The members ordered by last visit, the earliest first; members that visited
      at the same time keep their input order. */
  function SortByVisited(s: seq<Member>): (r: seq<Member>)
    ensures SortedByVisited(r)
    ensures |r| == |s| && multiset(r) == multiset(s)
  {
    if s == [] then []
    else
      assert s == [s[0]] + s[1..];
      Insert(s[0], SortByVisited(s[1..]))
  }

  /** `ByVisited.Swap`. */
  method Swap(a: array<Member>, i: nat, j: nat)
    requires i < a.Length && j < a.Length
    modifies a
    ensures a[i] == old(a[j]) && a[j] == old(a[i])
    ensures forall k :: 0 <= k < a.Length && k != i && k != j ==> a[k] == old(a[k])
    ensures multiset(a[..]) == multiset(old(a[..]))
  {
    a[i], a[j] := a[j], a[i];
  }

  /** Exchanging two neighbours inside the first `n` entries permutes those entries
      and leaves the rest alone. */
  lemma SwapInPrefix(s: seq<Member>, t: seq<Member>, j: nat, n: nat)
    requires 0 < j < n <= |s| == |t|
    requires t[j] == s[j - 1] && t[j - 1] == s[j]
    requires forall k :: 0 <= k < |t| && k != j && k != j - 1 ==> t[k] == s[k]
    ensures multiset(t[..n]) == multiset(s[..n]) && t[n..] == s[n..]
  {
    assert t[..n] == s[..n][j := s[j - 1]][j - 1 := s[j]];
  }

  /** No member of `a[lo..hi]` is less than one before it. */
  ghost predicate SortedBetween(a: array<Member>, lo: int, hi: int)
    reads a
  {
    forall p, q :: 0 <= lo <= p < q < hi <= a.Length ==> !Less(a[q], a[p])
  }

  /** `sort.Sort(ByVisited(members))` in place, by the insertion sort Go's
      `sort.Sort` runs on short slices: the result is ordered by last visit and is
      a permutation of the input. */
  method Sort(a: array<Member>)
    modifies a
    ensures SortedByVisited(a[..])
    ensures multiset(a[..]) == multiset(old(a[..]))
  {
    var i := 1;
    while i < a.Length
      invariant 1 <= i && (a.Length == 0 || i <= a.Length)
      invariant SortedBetween(a, 0, i)
      invariant multiset(a[..]) == multiset(old(a[..]))
    {
      SiftDown(a, i);
      i := i + 1;
    }
    assert SortedBetween(a, 0, a.Length);
  }

  /** The inner loop of the insertion sort: moves `a[i]` down past every member
      it is less than, leaving `a[..i + 1]` ordered. */
  method SiftDown(a: array<Member>, i: nat)
    requires i < a.Length && SortedBetween(a, 0, i)
    modifies a
    ensures SortedBetween(a, 0, i + 1)
    ensures multiset(a[..i + 1]) == multiset(old(a[..i + 1]))
    ensures a[i + 1..] == old(a[i + 1..])
    ensures multiset(a[..]) == multiset(old(a[..]))
  {
    var j := i;
    while j > 0 && Less(a[j], a[j - 1])
      invariant 0 <= j <= i
      invariant SortedAround(a, j, i)
      invariant multiset(a[..i + 1]) == multiset(old(a[..i + 1]))
      invariant a[i + 1..] == old(a[i + 1..])
    {
      SwapDown(a, j, i);
      j := j - 1;
    }
    assert a[..] == a[..i + 1] + a[i + 1..];
    assert old(a[..]) == old(a[..i + 1]) + old(a[i + 1..]);
  }

  /** While the entry that started at `i` sinks to place `j`: `a[..j]` and `a[j..i + 1]`
      are each in order, and nothing after place `j` is less than anything before it. */
  ghost predicate SortedAround(a: array<Member>, j: nat, i: nat)
    reads a
  {
    && SortedBetween(a, 0, j) && SortedBetween(a, j, i + 1)
    && forall p, q :: 0 <= p < j < q <= i < a.Length ==> !Less(a[q], a[p])
  }

  /** One step of `SiftDown`: the sinking entry changes places with the one before it. */
  method SwapDown(a: array<Member>, j: nat, i: nat)
    requires 0 < j <= i < a.Length && SortedAround(a, j, i) && Less(a[j], a[j - 1])
    modifies a
    ensures SortedAround(a, j - 1, i)
    ensures multiset(a[..i + 1]) == multiset(old(a[..i + 1]))
    ensures a[i + 1..] == old(a[i + 1..])
  {
    ghost var before := a[..];
    Swap(a, j, j - 1);
    SwapInPrefix(before, a[..], j, i + 1);
  }

  // ---------------------------------------------------------------------------
  // The mirror view

  function Names(ms: seq<Member>): (names: seq<string>)
    ensures |names| == |ms|
  {
    seq(|ms|, i requires 0 <= i < |ms| => ms[i].name)
  }

  /** The members the mirror view shows: the first ten after sorting by last visit.
      Fewer than ten members make the slice `members[:10]` fail. */
  function MirrorMembers(members: seq<Member>): (r: Option<seq<Member>>)
    ensures r.None? <==> |members| < 10
  {
    if |members| < 10 then None else Some(SortByVisited(members)[..10])
  }

  /** The mirror view shows ten of the members, ordered by last visit, and none of
      the members left out visited earlier than one shown. */
  lemma MirrorShowsLeastRecent(members: seq<Member>)
    requires |members| >= 10
    ensures var shown := MirrorMembers(members).value;
      && |shown| == 10
      && SortedByVisited(shown)
      && multiset(shown) <= multiset(members)
      && forall m, x :: m in shown && x in multiset(members) - multiset(shown) ==> !Less(x, m)
  {
    var r := SortByVisited(members);
    SortedSplit(r, 10);
    PrefixMultiset(r, 10);
  }

  /** A prefix of an ordered list is ordered, and nothing after it is less than anything in it. */
  lemma SortedSplit(r: seq<Member>, k: nat)
    requires SortedByVisited(r) && k <= |r|
    ensures SortedByVisited(r[..k])
    ensures forall m, x :: m in r[..k] && x in multiset(r[k..]) ==> !Less(x, m)
  {
    forall m, x | m in r[..k] && x in multiset(r[k..])
      ensures !Less(x, m)
    {
      var p :| 0 <= p < k && r[..k][p] == m;
      assert x in r[k..];
      var q :| 0 <= q < |r| - k && r[k..][q] == x;
      assert r[k + q] == x;
    }
  }

  /** The members after a prefix are exactly those of the whole list not in the prefix. */
  lemma PrefixMultiset(r: seq<Member>, k: nat)
    requires k <= |r|
    ensures multiset(r[..k]) <= multiset(r)
    ensures multiset(r) - multiset(r[..k]) == multiset(r[k..])
  {
    assert r == r[..k] + r[k..];
  }

  /** The people line of the mirror view; the " and " test compares with the
      number of fetched members, not the number shown. */
  function MirrorPeople(e: Event, members: seq<Member>): (r: Option<string>)
    ensures r.None? <==> |members| < 10
  {
    match MirrorMembers(members)
    case None => None
    case Some(shown) => Some(Listing(Trimmed(Names(shown)), |members| - 1) + Others(e))
  }

  /** With more than ten members every separator of the mirror list is a comma;
      with exactly ten the last one is " and ". */
  lemma MirrorPeopleShape(e: Event, members: seq<Member>)
    requires |members| >= 10
    ensures var t := Trimmed(Names(MirrorMembers(members).value));
      && (|members| > 10 ==> MirrorPeople(e, members) == Some(Join(t, ", ") + Others(e)))
      && (|members| == 10 ==> MirrorPeople(e, members) == Some(Join(t[..9], ", ") + " and " + t[9] + Others(e)))
  {
    var shown := MirrorMembers(members).value;
    var t := Trimmed(Names(shown));
    ListingShape(t, |members| - 1);
    assert t[9..] == [t[9]];
  }

  /** Members last seen at 5, 1, 9 and 3 come out in the order 1, 3, 5, 9. */
  lemma SortExample(a: Member, b: Member, c: Member, d: Member)
    requires a.groupProfile.visited == 5 && b.groupProfile.visited == 1
    requires c.groupProfile.visited == 9 && d.groupProfile.visited == 3
    ensures SortByVisited([a, b, c, d]) == [b, d, a, c]
  {
    assert [a, b, c, d][1..] == [b, c, d];
    SortExampleTail(b, c, d);
    assert SortByVisited([a, b, c, d]) == Insert(a, [b, d, c]);
    InsertExample(a, b, c, d);
  }

  lemma InsertExample(a: Member, b: Member, c: Member, d: Member)
    requires a.groupProfile.visited == 5 && b.groupProfile.visited == 1
    requires c.groupProfile.visited == 9 && d.groupProfile.visited == 3
    ensures Insert(a, [b, d, c]) == [b, d, a, c]
  {
    assert [b, d, c][1..] == [d, c];
    assert [d, c][1..] == [c];
    assert Insert(a, [c]) == [a, c];
    assert Insert(a, [d, c]) == [d] + [a, c];
    assert Insert(a, [b, d, c]) == [b] + [d, a, c];
  }

  lemma SortExampleTail(b: Member, c: Member, d: Member)
    requires b.groupProfile.visited == 1 && c.groupProfile.visited == 9 && d.groupProfile.visited == 3
    ensures SortByVisited([b, c, d]) == [b, d, c]
  {
    assert [b, c, d][1..] == [c, d];
    assert [c, d][1..] == [d];
    assert [d][1..] == [];
    assert SortByVisited([d]) == [d];
    assert SortByVisited([c, d]) == Insert(c, [d]) == [d, c];
  }
}
