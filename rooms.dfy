/**
 * The room directory's data: a room, its public summary, the directory
 * itself (a `Map` from room id to room), and the two read-only views of it
 * that the server hands out, the full listing and the search result.
 */
module Rooms {
  import opened Strings
  import opened Sequences
  import opened OrderedMaps

  type RoomId = string
  type Nickname = string

  /** `{id, name, description, createdAt, members}`; `members` is in join order. */
  datatype Room = Room(
    id: RoomId,
    name: string,
    description: string,
    createdAt: string,
    members: seq<Nickname>)

  /** The public projection of a room: its member list is reduced to a count. */
  datatype RoomSummary = RoomSummary(
    id: RoomId,
    name: string,
    description: string,
    createdAt: string,
    memberCount: nat)

  /** The directory, `rooms`, iterated in creation order. */
  type RoomTable = OrderedMap<RoomId, Room>

  /** What holds of every room the server stores, besides being stored under its own id. */
  predicate RoomOk(r: Room) {
    && r.name != "" && IsTrimmed(r.name)
    && IsTrimmed(r.description)
    && NoDuplicates(r.members)
    && forall i :: 0 <= i < |r.members| ==> r.members[i] != ""
  }

  /** Each room is stored under its own id. */
  predicate KeyedById(t: RoomTable) {
    forall id | id in t.table :: t.table[id].id == id
  }

  /** The directory invariant: each room is stored under its own id and is well formed. */
  predicate WellFormed(t: RoomTable) {
    && KeyedById(t)
    && forall id | id in t.table :: RoomOk(t.table[id])
  }

  function Summary(r: Room): (s: RoomSummary)
    ensures s.id == r.id && s.name == r.name && s.description == r.description
    ensures s.createdAt == r.createdAt && s.memberCount == |r.members|
  {
    RoomSummary(r.id, r.name, r.description, r.createdAt, |r.members|)
  }

  /** `rs.map(summary)`. */
  function Summaries(rs: seq<Room>): (ss: seq<RoomSummary>)
    ensures |ss| == |rs|
    ensures forall i :: 0 <= i < |rs| ==> ss[i] == Summary(rs[i])
  {
    if rs == [] then [] else [Summary(rs[0])] + Summaries(rs[1..])
  }

  /** The ids of a summary list, in order. */
  function Ids(ss: seq<RoomSummary>): (ids: seq<RoomId>)
    ensures |ids| == |ss|
    ensures forall i :: 0 <= i < |ss| ==> ids[i] == ss[i].id
  {
    if ss == [] then [] else [ss[0].id] + Ids(ss[1..])
  }

  /** The `roomsList` payload: one summary per stored room, in creation order. */
  function Listing(t: RoomTable): (ss: seq<RoomSummary>)
    requires t.Valid()
    ensures |ss| == |t.keys|
    ensures forall i :: 0 <= i < |ss| ==> ss[i] == Summary(t.table[t.keys[i]])
  {
    Summaries(t.Values())
  }

  /**
   * The listing has exactly one entry per stored room: its ids are the
   * directory's keys in iteration order, and each entry is that room's
   * summary, with `memberCount` the length of its member list.
   */
  lemma ListingOnePerRoom(t: RoomTable)
    requires t.Valid() && KeyedById(t)
    ensures Ids(Listing(t)) == t.keys
    ensures NoDuplicates(Ids(Listing(t)))
    ensures forall i :: 0 <= i < |t.keys| ==>
      Listing(t)[i] == Summary(t.table[t.keys[i]]) &&
      Listing(t)[i].memberCount == |t.table[t.keys[i]].members|
  {
    var vs := t.Values();
    var ss := Summaries(vs);
    assert Listing(t) == ss;
    forall i | 0 <= i < |t.keys|
      ensures ss[i] == Summary(t.table[t.keys[i]]) && Ids(ss)[i] == t.keys[i]
    {
      assert vs[i] == t.table[t.keys[i]];
    }
    assert Ids(ss) == t.keys;
  }

  /** The listing after `rooms.set` under a new id: the new room's summary is appended. */
  lemma ListingAfterInsert(t: RoomTable, id: RoomId, r: Room)
    requires t.Valid() && id !in t.table
    ensures Listing(t.Set(id, r)) == Listing(t) + [Summary(r)]
  {
    ValuesAfterSet(t, id, r);
  }

  /** The listing after `rooms.set` under a stored id: that room's summary changes in place. */
  lemma ListingAfterReplace(t: RoomTable, id: RoomId, r: Room)
    requires t.Valid() && id in t.table
    ensures Listing(t.Set(id, r)) == Listing(t)[IndexOf(t.keys, id) := Summary(r)]
  {
    ValuesAfterSet(t, id, r);
  }

  /** The listing after `rooms.delete`: the deleted room's summary drops out, the rest keep their order. */
  lemma ListingAfterDelete(t: RoomTable, id: RoomId)
    requires t.Valid() && id in t.table
    ensures Listing(t.Delete(id)) == RemoveAt(Listing(t), IndexOf(t.keys, id))
  {
    var i := IndexOf(t.keys, id);
    ValuesAfterDelete(t, id);
    SummariesRemoveAt(t.Values(), i);
  }

  lemma SummariesRemoveAt(rs: seq<Room>, i: nat)
    requires i < |rs|
    ensures Summaries(RemoveAt(rs, i)) == RemoveAt(Summaries(rs), i)
  {
    var lhs, rhs := Summaries(RemoveAt(rs, i)), RemoveAt(Summaries(rs), i);
    forall j | 0 <= j < |lhs| ensures lhs[j] == rhs[j] {
      if j < i { assert RemoveAt(rs, i)[j] == rs[j]; } else { assert RemoveAt(rs, i)[j] == rs[j + 1]; }
    }
  }

  /**
   * The `searchRooms` filter on a room: its lower-cased name or lower-cased
   * description includes the lower-cased term.
   */
  predicate Matches(r: Room, term: string) {
    Includes(ToLower(r.name), ToLower(term)) || Includes(ToLower(r.description), ToLower(term))
  }

  /** `rs.filter(room => Matches(room, term))`. */
  function Filter(rs: seq<Room>, term: string): (fs: seq<Room>)
    ensures |fs| <= |rs|
    ensures forall r :: r in fs <==> r in rs && Matches(r, term)
    ensures IsSubsequence(fs, rs)
    ensures forall r :: multiset(fs)[r] == if Matches(r, term) then multiset(rs)[r] else 0
  {
    if rs == [] then []
    else
      assert rs == [rs[0]] + rs[1..];
      if Matches(rs[0], term) then [rs[0]] + Filter(rs[1..], term)
      else Filter(rs[1..], term)
  }

  /** The `searchRooms` result: the rooms filtered, then projected to summaries. */
  function Search(t: RoomTable, term: string): (ss: seq<RoomSummary>)
    requires t.Valid()
    ensures |ss| <= |t.keys|
    ensures forall i :: 0 <= i < |ss| ==> SummaryMatches(ss[i], term)
  {
    var fs := Filter(t.Values(), term);
    assert forall i :: 0 <= i < |fs| ==> fs[i] in fs && Matches(fs[i], term);
    Summaries(fs)
  }

  /** The search condition, read off a summary instead of a room. */
  predicate SummaryMatches(s: RoomSummary, term: string) {
    Includes(ToLower(s.name), ToLower(term)) || Includes(ToLower(s.description), ToLower(term))
  }

  /** Keeps the summaries that satisfy the search condition, in order. */
  function FilterSummaries(ss: seq<RoomSummary>, term: string): (fs: seq<RoomSummary>)
    ensures forall s :: s in fs <==> s in ss && SummaryMatches(s, term)
    ensures IsSubsequence(fs, ss)
    ensures forall s :: multiset(fs)[s] == if SummaryMatches(s, term) then multiset(ss)[s] else 0
  {
    if ss == [] then []
    else
      assert ss == [ss[0]] + ss[1..];
      if SummaryMatches(ss[0], term) then [ss[0]] + FilterSummaries(ss[1..], term)
      else FilterSummaries(ss[1..], term)
  }

  /** Filtering rooms and then projecting them equals projecting them and then filtering. */
  lemma {:induction false} FilterCommutes(rs: seq<Room>, term: string)
    ensures Summaries(Filter(rs, term)) == FilterSummaries(Summaries(rs), term)
  {
    if rs != [] {
      FilterCommutes(rs[1..], term);
      assert Summaries(rs)[1..] == Summaries(rs[1..]);
      if Matches(rs[0], term) {
        assert Summaries([rs[0]] + Filter(rs[1..], term))
          == [Summary(rs[0])] + Summaries(Filter(rs[1..], term));
      }
    }
  }

  /**
   * A search returns exactly the part of the full listing whose name or
   * description includes the term case-insensitively, in listing order.
   */
  lemma SearchIsFilteredListing(t: RoomTable, term: string)
    requires t.Valid()
    ensures Search(t, term) == FilterSummaries(Listing(t), term)
    ensures forall s :: s in Search(t, term) <==> s in Listing(t) && SummaryMatches(s, term)
  {
    FilterCommutes(t.Values(), term);
  }

  /** Every room matches the empty term. */
  lemma {:induction false} FilterEmptyTerm(rs: seq<Room>)
    ensures Filter(rs, "") == rs
  {
    if rs != [] {
      IncludesEmpty(ToLower(rs[0].name));
      FilterEmptyTerm(rs[1..]);
    }
  }

  /** Searching for the empty term returns the full listing. */
  lemma SearchEmptyTerm(t: RoomTable)
    requires t.Valid()
    ensures Search(t, "") == Listing(t)
  {
    FilterEmptyTerm(t.Values());
  }

  /** The search ignores the case of the term: a term and its lower-cased form find the same rooms. */
  lemma {:induction false} FilterIgnoresTermCase(rs: seq<Room>, term: string)
    ensures Filter(rs, ToLower(term)) == Filter(rs, term)
  {
    ToLowerIdempotent(term);
    if rs != [] {
      FilterIgnoresTermCase(rs[1..], term);
    }
  }

  /** `searchRooms` with a term gives the same result as with its lower-cased form. */
  lemma SearchIgnoresTermCase(t: RoomTable, term: string)
    requires t.Valid()
    ensures Search(t, ToLower(term)) == Search(t, term)
  {
    FilterIgnoresTermCase(t.Values(), term);
  }
}
