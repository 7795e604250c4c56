/**
 * The bookmark repository of services/bookmarkService.ts: a read-modify-write
 * facade over one storage key that holds the whole collection.
 */
module BookmarkService {
  import opened Types
  import opened Seqs
  import Decimal

  /** What the storage key holds: nothing, text that does not parse, or a collection. */
  datatype StoreState = Missing | Unreadable | Holds(items: seq<Bookmark>)

  /** The two Date.now() readings an add makes: one for the id, one for createdAt. */
  datatype ClockReading = ClockReading(forId: nat, forCreatedAt: nat)

  /** getAllBookmarks: an absent key or unparsable text degrades to the empty collection. */
  function ReadAll(s: StoreState): (r: seq<Bookmark>)
    ensures s.Holds? ==> r == s.items
    ensures !s.Holds? ==> r == []
  {
    match s
    case Holds(items) => items
    case _ => []
  }

  /** saveAllBookmarks: the new collection replaces the old one, or the write fails and nothing changes. */
  function Written(s: StoreState, items: seq<Bookmark>, ok: bool): (r: StoreState)
    ensures ok ==> ReadAll(r) == items
    ensures !ok ==> r == s
  {
    if ok then Holds(items) else s
  }

  // ---------------------------------------------------------------------------
  // Ids

  /** The id template `bm-${Date.now()}`. */
  function MakeId(now: nat): (r: string)
    ensures |r| > 3 && r[..3] == "bm-"
    ensures Decimal.AllDigits(r[3..]) && Decimal.Canonical(r[3..]) && Decimal.Value(r[3..]) == now
  {
    assert ("bm-" + Decimal.NatToString(now))[3..] == Decimal.NatToString(now);
    "bm-" + Decimal.NatToString(now)
  }

  /** Different clock readings give different ids. */
  lemma MakeIdDistinct(a: nat, b: nat)
    requires a != b
    ensures MakeId(a) != MakeId(b)
  {
    assert MakeId(a)[3..] == Decimal.NatToString(a);
    assert MakeId(b)[3..] == Decimal.NatToString(b);
    Decimal.NatToStringDistinct(a, b);
  }

  /** The record addBookmark builds from a draft and its two clock readings. */
  function NewRecord(d: Draft, c: ClockReading): (b: Bookmark)
    ensures b.videoId == d.videoId && b.timestamp == d.timestamp && b.note == d.note
    ensures b.id == MakeId(c.forId) && b.createdAt == c.forCreatedAt
  {
    Bookmark(MakeId(c.forId), d.videoId, d.timestamp, d.note, c.forCreatedAt)
  }

  /** Every id in s was made from a clock reading earlier than now. */
  ghost predicate IdsBefore(s: seq<Bookmark>, now: nat)
  {
    forall i :: 0 <= i < |s| ==> exists t: nat :: t < now && s[i].id == MakeId(t)
  }

  /** The reading a made-before id was made from. */
  lemma ReadingOf(s: seq<Bookmark>, now: nat, i: nat) returns (t: nat)
    requires IdsBefore(s, now) && i < |s|
    ensures t < now && s[i].id == MakeId(t)
  {
    var b := s[i];
    t :| t < now && b.id == MakeId(t);
  }

  /**
   * Ids are unique only if the clock has moved on: if every stored id was made
   * before the reading the new id is made from, the appended record keeps the
   * ids unique and the collection stays made-before for any later reading.
   */
  lemma AddUniqueUnderAdvancingClock(s: seq<Bookmark>, d: Draft, c: ClockReading)
    requires UniqueIds(s) && IdsBefore(s, c.forId)
    ensures UniqueIds(s + [NewRecord(d, c)])
    ensures IdsBefore(s + [NewRecord(d, c)], c.forId + 1)
  {
    var s' := s + [NewRecord(d, c)];
    forall i, j | 0 <= i < j < |s'| ensures s'[i].id != s'[j].id {
      if j == |s| {
        var t := ReadingOf(s, c.forId, i);
        MakeIdDistinct(t, c.forId);
      }
    }
    forall i | 0 <= i < |s'| ensures exists t: nat :: t < c.forId + 1 && s'[i].id == MakeId(t) {
      if i == |s| {
        assert s'[i].id == MakeId(c.forId);
      } else {
        var t := ReadingOf(s, c.forId, i);
        assert s'[i].id == MakeId(t);
      }
    }
  }

  /** Two adds that read the same millisecond produce the same id. */
  lemma SameInstantSameId(d1: Draft, d2: Draft, c1: ClockReading, c2: ClockReading)
    requires c1.forId == c2.forId
    ensures !UniqueIds([NewRecord(d1, c1), NewRecord(d2, c2)])
  {
    var s := [NewRecord(d1, c1), NewRecord(d2, c2)];
    assert s[0].id == s[1].id;
  }

  // ---------------------------------------------------------------------------
  // Query: filter by video, then a stable sort by timestamp

  /** filter(b => b.videoId === videoId) */
  function OfVideo(s: seq<Bookmark>, videoId: string): (r: seq<Bookmark>)
    ensures IsSubsequence(r, s)
    ensures forall b :: multiset(r)[b] == if b.videoId == videoId then multiset(s)[b] else 0
  {
    FilterIsSubsequence(s, (b: Bookmark) => b.videoId == videoId);
    Filter(s, (b: Bookmark) => b.videoId == videoId)
  }

  /** The records with a given timestamp, in their order in s. */
  function WithTimestamp(s: seq<Bookmark>, t: int): seq<Bookmark>
  {
    Filter(s, (b: Bookmark) => b.timestamp == t)
  }

  predicate SortedByTimestamp(s: seq<Bookmark>)
  {
    forall i, j :: 0 <= i < j < |s| ==> s[i].timestamp <= s[j].timestamp
  }

  /** r lists the records of s with equal timestamps in the order s lists them. */
  ghost predicate StableFor(r: seq<Bookmark>, s: seq<Bookmark>)
  {
    forall t :: WithTimestamp(r, t) == WithTimestamp(s, t)
  }

  /** Places b before the first record whose timestamp is not smaller. */
  function Insert(b: Bookmark, s: seq<Bookmark>): (r: seq<Bookmark>)
    ensures multiset(r) == multiset(s) + multiset{b}
  {
    if s == [] || b.timestamp <= s[0].timestamp then [b] + s
    else
      assert s == [s[0]] + s[1..];
      [s[0]] + Insert(b, s[1..])
  }

  /** A lower bound of b and of every element of s bounds every element of Insert(b, s). */
  lemma {:induction false} InsertLowerBound(b: Bookmark, s: seq<Bookmark>, lo: int)
    requires lo <= b.timestamp
    requires forall k :: 0 <= k < |s| ==> lo <= s[k].timestamp
    ensures forall k :: 0 <= k < |Insert(b, s)| ==> lo <= Insert(b, s)[k].timestamp
  {
    if s != [] && b.timestamp > s[0].timestamp {
      var tail := s[1..];
      assert forall k :: 0 <= k < |tail| ==> lo <= tail[k].timestamp by {
        forall k | 0 <= k < |tail| ensures lo <= tail[k].timestamp {
          assert tail[k] == s[k + 1];
        }
      }
      InsertLowerBound(b, tail, lo);
      assert Insert(b, s) == [s[0]] + Insert(b, tail);
    } else {
      assert Insert(b, s) == [b] + s;
    }
  }

  lemma {:induction false} InsertSorted(b: Bookmark, s: seq<Bookmark>)
    requires SortedByTimestamp(s)
    ensures SortedByTimestamp(Insert(b, s))
  {
    if s == [] || b.timestamp <= s[0].timestamp {
      assert Insert(b, s) == [b] + s;
    } else {
      var tail := s[1..];
      assert SortedByTimestamp(tail) by {
        forall i, j | 0 <= i < j < |tail| ensures tail[i].timestamp <= tail[j].timestamp {
          assert tail[i] == s[i + 1] && tail[j] == s[j + 1];
        }
      }
      InsertSorted(b, tail);
      var r := Insert(b, tail);
      assert Insert(b, s) == [s[0]] + r;
      assert forall k :: 0 <= k < |tail| ==> s[0].timestamp <= tail[k].timestamp by {
        forall k | 0 <= k < |tail| ensures s[0].timestamp <= tail[k].timestamp {
          assert tail[k] == s[k + 1];
        }
      }
      InsertLowerBound(b, tail, s[0].timestamp);
    }
  }

  /** The timestamp group of a sequence with a first element. */
  lemma WithTimestampCons(x: Bookmark, rest: seq<Bookmark>, t: int)
    ensures WithTimestamp([x] + rest, t) == (if x.timestamp == t then [x] else []) + WithTimestamp(rest, t)
  {
    var r := [x] + rest;
    assert r[0] == x && r[1..] == rest;
  }

  lemma {:induction false} InsertWithTimestamp(b: Bookmark, s: seq<Bookmark>, t: int)
    ensures WithTimestamp(Insert(b, s), t) == (if b.timestamp == t then [b] else []) + WithTimestamp(s, t)
  {
    if s == [] || b.timestamp <= s[0].timestamp {
      assert Insert(b, s) == [b] + s;
      WithTimestampCons(b, s, t);
    } else {
      var x, rest := s[0], s[1..];
      assert s == [x] + rest;
      var ins := Insert(b, rest);
      assert Insert(b, s) == [x] + ins;
      InsertWithTimestamp(b, rest, t);
      WithTimestampCons(x, ins, t);
      WithTimestampCons(x, rest, t);
      SwapGroups(x, b, WithTimestamp(rest, t), t);
    }
  }

  /** A record that does not belong to group t can move past the one that does. */
  lemma SwapGroups(x: Bookmark, b: Bookmark, g: seq<Bookmark>, t: int)
    requires x.timestamp < b.timestamp
    ensures (if x.timestamp == t then [x] else []) + ((if b.timestamp == t then [b] else []) + g)
         == (if b.timestamp == t then [b] else []) + ((if x.timestamp == t then [x] else []) + g)
  {
  }

  /** sort((a, b) => a.timestamp - b.timestamp), stable as Array.prototype.sort is since ES2019. */
  function SortByTimestamp(s: seq<Bookmark>): (r: seq<Bookmark>)
    ensures SortedByTimestamp(r)
    ensures multiset(r) == multiset(s)
    ensures StableFor(r, s)
  {
    if s == [] then []
    else
      var rest := SortByTimestamp(s[1..]);
      SortStep(s, rest);
      Insert(s[0], rest)
  }

  /** Inserting the head into a correct sort of the tail gives a correct sort of the whole. */
  lemma SortStep(s: seq<Bookmark>, rest: seq<Bookmark>)
    requires s != [] && SortedByTimestamp(rest)
    requires multiset(rest) == multiset(s[1..]) && StableFor(rest, s[1..])
    ensures SortedByTimestamp(Insert(s[0], rest))
    ensures multiset(Insert(s[0], rest)) == multiset(s)
    ensures StableFor(Insert(s[0], rest), s)
  {
    InsertSorted(s[0], rest);
    assert s == [s[0]] + s[1..];
    forall t ensures WithTimestamp(Insert(s[0], rest), t) == WithTimestamp(s, t) {
      InsertWithTimestamp(s[0], rest, t);
      WithTimestampCons(s[0], s[1..], t);
    }
  }

  /** getBookmarksForVideo on a given collection. */
  function BookmarksForVideo(all: seq<Bookmark>, videoId: string): (r: seq<Bookmark>)
    ensures SortedByTimestamp(r)
    ensures multiset(r) == multiset(OfVideo(all, videoId))
    ensures StableFor(r, OfVideo(all, videoId))
    ensures forall b :: b in r <==> b in all && b.videoId == videoId
  {
    var matching := OfVideo(all, videoId);
    var r := SortByTimestamp(matching);
    assert forall b :: b in r <==> b in multiset(r);
    assert forall b :: b in matching <==> b in multiset(matching);
    r
  }

  // ---------------------------------------------------------------------------
  // Update: findIndex, then replace that one position

  /** findIndex(b => b.id === id), with None for -1. */
  function FirstIndexOf(s: seq<Bookmark>, id: string): (r: Option<nat>)
    ensures r.Some? ==> r.value < |s| && s[r.value].id == id
    ensures r.Some? ==> forall j :: 0 <= j < r.value ==> s[j].id != id
    ensures r.None? <==> forall j :: 0 <= j < |s| ==> s[j].id != id
  {
    if s == [] then None
    else if s[0].id == id then Some(0)
    else match FirstIndexOf(s[1..], id)
      case None => None
      case Some(k) => Some(k + 1)
  }

  /** The collection updateBookmark writes, or None when it finds no record with that id. */
  function ReplaceFirst(s: seq<Bookmark>, u: Bookmark): (r: Option<seq<Bookmark>>)
    ensures r.None? <==> forall j :: 0 <= j < |s| ==> s[j].id != u.id
    ensures r.Some? ==> |r.value| == |s|
    ensures r.Some? ==> exists i :: 0 <= i < |s| && s[i].id == u.id && r.value == s[i := u]
                             && forall j :: 0 <= j < i ==> s[j].id != u.id
  {
    match FirstIndexOf(s, u.id)
    case None => None
    case Some(i) => Some(s[i := u])
  }

  /**
   * With duplicate ids only the first match is replaced: a later record that
   * carries the same id survives the update unchanged.
   */
  lemma UpdateLeavesLaterDuplicates(s: seq<Bookmark>, u: Bookmark, k: nat, j: nat)
    requires k < j < |s| && s[k].id == u.id && s[j].id == u.id
    ensures ReplaceFirst(s, u).Some? && ReplaceFirst(s, u).value[j] == s[j]
  {
    var i := FirstIndexOf(s, u.id).value;
    assert i <= k;
  }

  // ---------------------------------------------------------------------------
  // Delete: filter out every record with that id

  /** filter(b => b.id !== bookmarkId) */
  function WithoutId(s: seq<Bookmark>, id: string): (r: seq<Bookmark>)
    ensures IsSubsequence(r, s)
    ensures forall b :: b in r <==> b in s && b.id != id
    ensures forall b :: multiset(r)[b] == if b.id != id then multiset(s)[b] else 0
  {
    FilterIsSubsequence(s, (b: Bookmark) => b.id != id);
    Filter(s, (b: Bookmark) => b.id != id)
  }

  /** Deleting an id that is not there leaves the collection as it was. */
  lemma DeleteAbsentId(s: seq<Bookmark>, id: string)
    requires forall j :: 0 <= j < |s| ==> s[j].id != id
    ensures WithoutId(s, id) == s
  {
    FilterKeepsAll(s, (b: Bookmark) => b.id != id);
  }

  /** Deleting twice is deleting once. */
  lemma DeleteIdempotent(s: seq<Bookmark>, id: string)
    ensures WithoutId(WithoutId(s, id), id) == WithoutId(s, id)
  {
    FilterIdempotent(s, (b: Bookmark) => b.id != id);
  }

  // ---------------------------------------------------------------------------
  // The store-level effect of each operation

  function AddStep(s: StoreState, d: Draft, c: ClockReading, ok: bool): (r: StoreState)
    ensures ok ==> ReadAll(r) == ReadAll(s) + [NewRecord(d, c)]
    ensures !ok ==> r == s
  {
    Written(s, ReadAll(s) + [NewRecord(d, c)], ok)
  }

  /** updateBookmark's effect: no write when no id matches, else the first match replaced. */
  function UpdateStep(s: StoreState, u: Bookmark, ok: bool): (r: StoreState)
    ensures (forall j :: 0 <= j < |ReadAll(s)| ==> ReadAll(s)[j].id != u.id) ==> r == s
    ensures ok && ReplaceFirst(ReadAll(s), u).Some? ==> ReadAll(r) == ReplaceFirst(ReadAll(s), u).value
    ensures !ok ==> r == s
  {
    match FirstIndexOf(ReadAll(s), u.id)
    case None => s
    case Some(i) =>
      var items := ReadAll(s)[i := u];
      assert items[i] == u;
      Written(s, items, ok)
  }

  /** Replacing the first match leaves it the first match. */
  lemma FirstIndexAfterReplace(s: seq<Bookmark>, u: Bookmark, i: nat)
    requires FirstIndexOf(s, u.id) == Some(i)
    ensures FirstIndexOf(s[i := u], u.id) == Some(i)
  {
    var t := s[i := u];
    assert i < |t| && t[i] == u;
    assert forall j :: 0 <= j < i ==> t[j].id != u.id by {
      forall j | 0 <= j < i ensures t[j].id != u.id {
        assert t[j] == s[j];
      }
    }
    var k := FirstIndexOf(t, u.id).value;
    assert t[k].id == u.id;
  }

  /** Saving the same record twice, with working writes, leaves what saving it once leaves. */
  lemma UpdateStepTwice(s: StoreState, u: Bookmark)
    ensures UpdateStep(UpdateStep(s, u, true), u, true) == UpdateStep(s, u, true)
  {
    var all := ReadAll(s);
    match FirstIndexOf(all, u.id)
    case None =>
    case Some(i) =>
      var once := all[i := u];
      assert ReadAll(UpdateStep(s, u, true)) == once;
      FirstIndexAfterReplace(all, u, i);
      assert once[i := u] == once;
  }

  /** deleteBookmark's effect: the filtered collection is written whether or not anything matched. */
  function DeleteStep(s: StoreState, id: string, ok: bool): (r: StoreState)
    ensures ok ==> forall b :: b in ReadAll(r) <==> b in ReadAll(s) && b.id != id
    ensures ok ==> ReadAll(r) == WithoutId(ReadAll(s), id)
    ensures !ok ==> r == s
  {
    Written(s, WithoutId(ReadAll(s), id), ok)
  }

  /** Deleting twice in a row, with working writes, leaves what deleting once leaves. */
  lemma DeleteStepTwice(s: StoreState, id: string)
    ensures DeleteStep(DeleteStep(s, id, true), id, true) == DeleteStep(s, id, true)
  {
    DeleteIdempotent(ReadAll(s), id);
  }

  /** The store after the forEach of addBookmark over a list of drafts. */
  function SeedSteps(s: StoreState, ds: seq<Draft>, cs: seq<ClockReading>, oks: seq<bool>): (r: StoreState)
    requires |cs| == |ds| && |oks| == |ds|
    ensures ReadAll(s) <= ReadAll(r)
    ensures |ReadAll(r)| <= |ReadAll(s)| + |ds|
    decreases ds
  {
    if ds == [] then s else SeedSteps(AddStep(s, ds[0], cs[0], oks[0]), ds[1..], cs[1..], oks[1..])
  }

  /** The records the demo list becomes, given one clock reading per add. */
  function Records(ds: seq<Draft>, cs: seq<ClockReading>): (r: seq<Bookmark>)
    requires |cs| == |ds|
    ensures |r| == |ds|
  {
    if ds == [] then [] else [NewRecord(ds[0], cs[0])] + Records(ds[1..], cs[1..])
  }

  /** The k-th demo record is built from the k-th draft and the k-th clock reading. */
  lemma {:induction false} RecordsAt(ds: seq<Draft>, cs: seq<ClockReading>, k: nat)
    requires |cs| == |ds| && k < |ds|
    ensures Records(ds, cs)[k] == NewRecord(ds[k], cs[k])
  {
    if k > 0 {
      RecordsAt(ds[1..], cs[1..], k - 1);
    }
  }

  /** The seven demo drafts of initializeDemoData, in their listed order. */
  const DemoDrafts: seq<Draft> := [
    Draft("dQw4w9WgXcQ", 43, "The iconic chorus begins here! A key part of the song."),
    Draft("dQw4w9WgXcQ", 88, "Interesting dance move. Might be useful for a project."),
    Draft("dQw4w9WgXcQ", 153, "Bridge section with different instrumentation."),
    Draft("yPYZpwSpKmA", 350, "Explanation of generic types. This is a crucial concept to review."),
    Draft("yPYZpwSpKmA", 1215, "Utility Types: Pick and Omit. Very useful for API responses."),
    Draft("yPYZpwSpKmA", 2480, "Deep dive into conditional types. Need to re-watch this section."),
    Draft("yPYZpwSpKmA", 3600, "Project setup and configuration with tsconfig.json.")
  ]

  /** initializeDemoData: seeds only when the collection reads as empty. */
  function Bootstrap(s: StoreState, cs: seq<ClockReading>, oks: seq<bool>): (r: StoreState)
    requires |cs| == |DemoDrafts| && |oks| == |DemoDrafts|
    ensures ReadAll(s) != [] ==> r == s
  {
    if ReadAll(s) != [] then s else SeedSteps(s, DemoDrafts, cs, oks)
  }

  /** Bootstrapping never loses what the store reads as, and one working write makes it non-empty. */
  lemma BootstrapExtends(s: StoreState, cs: seq<ClockReading>, oks: seq<bool>)
    requires |cs| == |DemoDrafts| && |oks| == |DemoDrafts|
    ensures ReadAll(s) <= ReadAll(Bootstrap(s, cs, oks))
    ensures true in oks ==> ReadAll(Bootstrap(s, cs, oks)) != []
  {
    SeedExtends(s, DemoDrafts, cs, oks);
  }

  /** n write results that all succeed. */
  function AllOk(n: nat): (r: seq<bool>)
    ensures |r| == n
    ensures forall k :: 0 <= k < n ==> r[k]
  {
    if n == 0 then [] else [true] + AllOk(n - 1)
  }

  /** A sequence of write results none of which failed is AllOk. */
  lemma {:induction false} EveryWriteOk(oks: seq<bool>)
    requires forall k :: 0 <= k < |oks| ==> oks[k]
    ensures oks == AllOk(|oks|)
  {
    if oks != [] {
      var tail := oks[1..];
      assert forall k :: 0 <= k < |tail| ==> tail[k] by {
        forall k | 0 <= k < |tail| ensures tail[k] {
          assert tail[k] == oks[k + 1];
        }
      }
      EveryWriteOk(tail);
      assert oks == [oks[0]] + tail;
    }
  }

  /** With working writes, one add and then the rest of the loop appends the first record, then the rest. */
  lemma SeedStepOk(s: StoreState, ds: seq<Draft>, cs: seq<ClockReading>)
    requires |cs| == |ds| && ds != []
    requires ReadAll(SeedSteps(AddStep(s, ds[0], cs[0], true), ds[1..], cs[1..], AllOk(|ds| - 1)))
             == ReadAll(AddStep(s, ds[0], cs[0], true)) + Records(ds[1..], cs[1..])
    ensures ReadAll(SeedSteps(s, ds, cs, AllOk(|ds|))) == ReadAll(s) + Records(ds, cs)
  {
    var oks := AllOk(|ds|);
    assert oks == [true] + AllOk(|ds| - 1);
    assert oks[0] && oks[1..] == AllOk(|ds| - 1);
    var s1 := AddStep(s, ds[0], cs[0], true);
    assert SeedSteps(s, ds, cs, oks) == SeedSteps(s1, ds[1..], cs[1..], AllOk(|ds| - 1));
    var first, rest := NewRecord(ds[0], cs[0]), Records(ds[1..], cs[1..]);
    assert Records(ds, cs) == [first] + rest;
    assert ReadAll(s1) == ReadAll(s) + [first];
    AppendAssoc(ReadAll(s), [first], rest);
  }

  lemma AppendAssoc(a: seq<Bookmark>, b: seq<Bookmark>, c: seq<Bookmark>)
    ensures (a + b) + c == a + (b + c)
  {
  }

  /** When every write succeeds, seeding appends exactly the records, in order. */
  lemma {:induction false} SeedAppendsRecords(s: StoreState, ds: seq<Draft>, cs: seq<ClockReading>)
    requires |cs| == |ds|
    ensures ReadAll(SeedSteps(s, ds, cs, AllOk(|ds|))) == ReadAll(s) + Records(ds, cs)
    decreases ds
  {
    if ds != [] {
      SeedAppendsRecords(AddStep(s, ds[0], cs[0], true), ds[1..], cs[1..]);
      SeedStepOk(s, ds, cs);
    }
  }

  /** Seeding never loses what the store already reads as. */
  lemma SeedExtends(s: StoreState, ds: seq<Draft>, cs: seq<ClockReading>, oks: seq<bool>)
    requires |cs| == |ds| && |oks| == |ds|
    ensures ReadAll(s) <= ReadAll(SeedSteps(s, ds, cs, oks))
    ensures true in oks ==> ReadAll(SeedSteps(s, ds, cs, oks)) != []
  {
    if true in oks {
      SeedNonEmpty(s, ds, cs, oks);
    }
  }

  /** One working write in the loop leaves the collection non-empty. */
  lemma {:induction false} SeedNonEmpty(s: StoreState, ds: seq<Draft>, cs: seq<ClockReading>, oks: seq<bool>)
    requires |cs| == |ds| && |oks| == |ds| && true in oks
    ensures ReadAll(SeedSteps(s, ds, cs, oks)) != []
    decreases ds
  {
    if oks[0] {
      FirstWriteKept(s, ds, cs, oks);
    } else {
      assert oks == [oks[0]] + oks[1..];
      FailedWriteSkipped(s, ds, cs, oks);
      SeedNonEmpty(s, ds[1..], cs[1..], oks[1..]);
    }
  }

  /** A working first write puts a record in the collection, and the rest of the loop keeps it. */
  lemma FirstWriteKept(s: StoreState, ds: seq<Draft>, cs: seq<ClockReading>, oks: seq<bool>)
    requires |cs| == |ds| && |oks| == |ds| && ds != [] && oks[0]
    ensures ReadAll(SeedSteps(s, ds, cs, oks)) != []
  {
    var s' := AddStep(s, ds[0], cs[0], true);
    assert |ReadAll(s')| == |ReadAll(s)| + 1;
    assert |ReadAll(s')| <= |ReadAll(SeedSteps(s', ds[1..], cs[1..], oks[1..]))|;
  }

  /** A failed first write leaves the loop to the remaining drafts. */
  lemma FailedWriteSkipped(s: StoreState, ds: seq<Draft>, cs: seq<ClockReading>, oks: seq<bool>)
    requires |cs| == |ds| && |oks| == |ds| && ds != [] && !oks[0]
    ensures SeedSteps(s, ds, cs, oks) == SeedSteps(s, ds[1..], cs[1..], oks[1..])
  {
  }

  /** On an empty store with working writes the demo records are exactly the seven drafts, in order. */
  lemma BootstrapSeedsDemo(s: StoreState, cs: seq<ClockReading>, oks: seq<bool>)
    requires |cs| == |DemoDrafts| && |oks| == |DemoDrafts|
    requires ReadAll(s) == []
    requires forall k :: 0 <= k < |oks| ==> oks[k]
    ensures ReadAll(Bootstrap(s, cs, oks)) == Records(DemoDrafts, cs)
  {
    EveryWriteOk(oks);
    SeedAppendsRecords(s, DemoDrafts, cs);
  }

  /** Once one write of the first bootstrap has succeeded, a second bootstrap changes nothing. */
  lemma BootstrapIdempotent(s: StoreState, cs1: seq<ClockReading>, oks1: seq<bool>, cs2: seq<ClockReading>, oks2: seq<bool>)
    requires |cs1| == |DemoDrafts| && |oks1| == |DemoDrafts|
    requires |cs2| == |DemoDrafts| && |oks2| == |DemoDrafts|
    requires true in oks1
    ensures Bootstrap(Bootstrap(s, cs1, oks1), cs2, oks2) == Bootstrap(s, cs1, oks1)
  {
    if ReadAll(s) == [] {
      SeedExtends(s, DemoDrafts, cs1, oks1);
    }
  }

  /** With a strictly advancing clock the seeded ids are pairwise distinct. */
  lemma SeedUniqueUnderAdvancingClock(ds: seq<Draft>, cs: seq<ClockReading>)
    requires |cs| == |ds|
    requires forall i, j :: 0 <= i < j < |cs| ==> cs[i].forId < cs[j].forId
    ensures UniqueIds(Records(ds, cs))
  {
    var r := Records(ds, cs);
    forall i, j | 0 <= i < j < |r| ensures r[i].id != r[j].id {
      RecordsAt(ds, cs, i);
      RecordsAt(ds, cs, j);
      MakeIdDistinct(cs[i].forId, cs[j].forId);
    }
  }

  /** The seed loop runs back to back: if the clock does not advance, the demo ids collide. */
  lemma SeedSameInstantCollides(ds: seq<Draft>, cs: seq<ClockReading>)
    requires |cs| == |ds| && |ds| >= 2
    requires cs[0].forId == cs[1].forId
    ensures !UniqueIds(Records(ds, cs))
  {
    var r := Records(ds, cs);
    RecordsAt(ds, cs, 0);
    RecordsAt(ds, cs, 1);
    assert r[0].id == r[1].id;
  }

  // ---------------------------------------------------------------------------
  // The repository object: one mutable store behind the exported functions

  class BookmarkStore {
    var store: StoreState

    constructor (initial: StoreState)
      ensures store == initial
    {
      store := initial;
    }

    /** getAllBookmarks */
    function All(): seq<Bookmark>
      reads this
    {
      ReadAll(store)
    }

    /** saveAllBookmarks; ok says whether localStorage accepted the write. */
    method SaveAll(items: seq<Bookmark>, ok: bool)
      modifies this
      ensures store == Written(old(store), items, ok)
      ensures ok ==> All() == items
    {
      if ok {
        store := Holds(items);
      }
    }

    /** getBookmarksForVideo: reads the collection and never writes it. */
    method GetBookmarksForVideo(videoId: string) returns (r: seq<Bookmark>)
      ensures r == BookmarksForVideo(All(), videoId)
    {
      var all := All();
      r := SortByTimestamp(OfVideo(all, videoId));
    }

    /** addBookmark: appends one new record and returns it. */
    method AddBookmark(d: Draft, c: ClockReading, ok: bool) returns (nb: Bookmark)
      modifies this
      ensures nb == NewRecord(d, c)
      ensures store == AddStep(old(store), d, c, ok)
      ensures ok ==> All() == old(All()) + [nb]
    {
      var all := All();
      nb := NewRecord(d, c);
      SaveAll(all + [nb], ok);
    }

    /** updateBookmark: replaces the first record with the same id; no write when there is none. */
    method UpdateBookmark(u: Bookmark, ok: bool) returns (r: Option<Bookmark>)
      modifies this
      ensures store == UpdateStep(old(store), u, ok)
      ensures r == if ReplaceFirst(old(All()), u).Some? then Some(u) else None
    {
      var all := All();
      var index := FirstIndexOf(all, u.id);
      if index.Some? {
        all := all[index.value := u];
        SaveAll(all, ok);
        r := Some(u);
      } else {
        r := None;
      }
    }

    /** deleteBookmark: removes every record with that id; it writes even when none matched. */
    method DeleteBookmark(id: string, ok: bool)
      modifies this
      ensures store == DeleteStep(old(store), id, ok)
      ensures (forall j :: 0 <= j < |old(All())| ==> old(All())[j].id != id) ==> All() == old(All())
    {
      var all := All();
      var filtered := WithoutId(all, id);
      SaveAll(filtered, ok);
      if forall j :: 0 <= j < |all| ==> all[j].id != id {
        DeleteAbsentId(all, id);
      }
    }

    /** initializeDemoData: does nothing on a non-empty collection, else adds the demo drafts one by one. */
    method InitializeDemoData(cs: seq<ClockReading>, oks: seq<bool>)
      requires |cs| == |DemoDrafts| && |oks| == |DemoDrafts|
      modifies this
      ensures store == Bootstrap(old(store), cs, oks)
      ensures old(All()) != [] ==> store == old(store)
    {
      var all := All();
      if |all| > 0 {
        return;
      }
      AddEach(DemoDrafts, cs, oks);
    }

    /** demoBookmarks.forEach(bm => addBookmark(bm)) */
    method AddEach(ds: seq<Draft>, cs: seq<ClockReading>, oks: seq<bool>)
      requires |cs| == |ds| && |oks| == |ds|
      modifies this
      ensures store == SeedSteps(old(store), ds, cs, oks)
    {
      ghost var s0 := store;
      for i := 0 to |ds|
        invariant SeedSteps(store, ds[i..], cs[i..], oks[i..]) == SeedSteps(s0, ds, cs, oks)
      {
        assert ds[i..][1..] == ds[i + 1..];
        assert cs[i..][1..] == cs[i + 1..];
        assert oks[i..][1..] == oks[i + 1..];
        var _ := AddBookmark(ds[i], cs[i], oks[i]);
      }
    }
  }
}
