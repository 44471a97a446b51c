// Deduplication of reading items whose relative paths differ only in ASCII case: tables,
// the choice of the survivor, and one merged group as a function of the tables.
module ReadingLibrary {
  import opened Text
  import opened Ranking

  // `other` stands for the columns the deduplication never reads or writes.
  datatype Item = Item(relPath: string, available: bool, addedAt: string, updatedAt: string,
                       lastSeenAt: Option<string>, other: string)
  datatype Bookmark = Bookmark(locator: string, updatedAt: string)

  // Bookmarks are keyed by (item, profile), their primary key.
  datatype Library = Library(items: map<int, Item>, bookmarks: map<(int, string), Bookmark>)

  // The foreign key of the bookmarks
  ghost predicate Linked(lib: Library) {
    forall k :: k in lib.bookmarks ==> k.0 in lib.items
  }

  // ---- COLLATE NOCASE: ASCII letters only ----

  function NoCase(s: string): (r: string)
    ensures |r| == |s| && (r == "" <==> s == "")
  {
    Lower(s)
  }

  // The items whose path differs from this one at most in ASCII case
  function Members(lib: Library, path: string): set<int> {
    set i | i in lib.items && NoCase(lib.items[i].relPath) == NoCase(path)
  }

  // ---- The sort ----

  function ProfilesOf(lib: Library, item: int): set<string> {
    set k | k in lib.bookmarks && k.0 == item :: k.1
  }

  // The latest parsed time of the item's bookmarks, 0 when none is later
  ghost predicate IsLatestStamp(lib: Library, item: int, parse: string -> int, m: int) {
    && m >= 0
    && (forall p :: p in ProfilesOf(lib, item) ==> parse(lib.bookmarks[(item, p)].updatedAt) <= m)
    && (m > 0 ==> exists p :: p in ProfilesOf(lib, item) && parse(lib.bookmarks[(item, p)].updatedAt) == m)
  }

  lemma {:induction false} LatestStampExists(lib: Library, item: int, parse: string -> int, profiles: set<string>)
    returns (m: int)
    requires profiles <= ProfilesOf(lib, item)
    ensures m >= 0
    ensures forall p :: p in profiles ==> parse(lib.bookmarks[(item, p)].updatedAt) <= m
    ensures m > 0 ==> exists p :: p in profiles && parse(lib.bookmarks[(item, p)].updatedAt) == m
    decreases |profiles|
  {
    m := 0;
    if p :| p in profiles {
      m := LatestStampExists(lib, item, parse, profiles - {p});
      var stamp := parse(lib.bookmarks[(item, p)].updatedAt);
      if stamp > m { m := stamp; }
    }
  }

  ghost function LatestStamp(lib: Library, item: int, parse: string -> int): (m: int)
    ensures IsLatestStamp(lib, item, parse, m)
  {
    assert exists m :: IsLatestStamp(lib, item, parse, m) by {
      var m := LatestStampExists(lib, item, parse, ProfilesOf(lib, item));
      assert IsLatestStamp(lib, item, parse, m);
    }
    var m :| IsLatestStamp(lib, item, parse, m);
    m
  }

  lemma LatestStampIsUnique(lib: Library, item: int, parse: string -> int, m: int, n: int)
    requires IsLatestStamp(lib, item, parse, m) && IsLatestStamp(lib, item, parse, n)
    ensures m == n
  {
  }

  // available, latest bookmark, updated_at, last_seen_at, id: larger first
  ghost function RankItems(lib: Library, ids: set<int>, parse: string -> int): map<int, Rank> {
    map i | i in ids && i in lib.items ::
      Rank(if lib.items[i].available then 1 else 0, LatestStamp(lib, i, parse), parse(lib.items[i].updatedAt),
           parse(if lib.items[i].lastSeenAt.Some? then lib.items[i].lastSeenAt.value else ""), i)
  }

  // ---- The bookmark of a profile ----

  // latestBookmarkByProfile: the first of the bookmarks with the greatest parsed time
  function Pick(lib: Library, sorted: seq<int>, profile: string, parse: string -> int): Option<Bookmark> {
    if sorted == [] then None
    else
      var before := Pick(lib, sorted[..|sorted| - 1], profile, parse);
      var k := (sorted[|sorted| - 1], profile);
      if k in lib.bookmarks && (before == None || parse(lib.bookmarks[k].updatedAt) > parse(before.value.updatedAt))
      then Some(lib.bookmarks[k]) else before
  }

  // A row that is already there is replaced only by one with a greater time stamp.
  function Upsert(rows: map<(int, string), Bookmark>, k: (int, string), excluded: Bookmark)
    : map<(int, string), Bookmark>
  {
    if k in rows && Le(excluded.updatedAt, rows[k].updatedAt) then rows else rows[k := excluded]
  }

  function Kept(lib: Library, sorted: seq<int>, profile: string, parse: string -> int): (b: Bookmark)
    requires sorted != [] && Pick(lib, sorted, profile, parse).Some?
  {
    var k, picked := (sorted[0], profile), Pick(lib, sorted, profile, parse).value;
    if k in lib.bookmarks && Le(picked.updatedAt, lib.bookmarks[k].updatedAt) then lib.bookmarks[k] else picked
  }

  function GroupProfiles(lib: Library, sorted: seq<int>): set<string> {
    set k | k in lib.bookmarks && k.0 in sorted :: k.1
  }

  // ---- Dates ----

  // The smallest non-empty text, or the fallback
  function Earliest(values: seq<string>, fallback: string): string {
    if values == [] then fallback
    else
      var rest := Earliest(values[1..], fallback);
      if values[0] == "" then rest
      else if (forall i :: 1 <= i < |values| ==> values[i] == "") || Le(values[0], rest) then values[0] else rest
  }

  // The greatest non-empty text, or the fallback
  function Latest(values: seq<string>, fallback: string): string {
    if values == [] then fallback
    else
      var rest := Latest(values[1..], fallback);
      if values[0] == "" then rest
      else if (forall i :: 1 <= i < |values| ==> values[i] == "") || Le(rest, values[0]) then values[0] else rest
  }

  ghost predicate Blank(values: seq<string>) {
    forall i :: 0 <= i < |values| ==> values[i] == ""
  }

  lemma {:induction false} EarliestIsMinimum(values: seq<string>, fallback: string)
    ensures Blank(values) ==> Earliest(values, fallback) == fallback
    ensures !Blank(values) ==>
              && Earliest(values, fallback) in values && Earliest(values, fallback) != ""
              && forall i :: 0 <= i < |values| && values[i] != "" ==> Le(Earliest(values, fallback), values[i])
  {
    if values != [] {
      var rest := values[1..];
      EarliestIsMinimum(rest, fallback);
      assert Blank(rest) <==> forall i :: 1 <= i < |values| ==> values[i] == "" by {
        if Blank(rest) { forall i | 1 <= i < |values| ensures values[i] == "" { assert rest[i - 1] == values[i]; } }
      }
      LeReflexive(values[0]);
      LeTotal(values[0], Earliest(rest, fallback));
      forall i | 0 <= i < |values| && values[i] != "" ensures Le(Earliest(values, fallback), values[i]) {
        if i > 0 {
          assert rest[i - 1] == values[i];
          if Le(values[0], Earliest(rest, fallback)) { LeTransitive(values[0], Earliest(rest, fallback), values[i]); }
        } else if Earliest(values, fallback) != values[0] {
          assert Le(Earliest(rest, fallback), values[0]);
        }
      }
    }
  }

  lemma {:induction false} LatestIsMaximum(values: seq<string>, fallback: string)
    ensures Blank(values) ==> Latest(values, fallback) == fallback
    ensures !Blank(values) ==>
              && Latest(values, fallback) in values && Latest(values, fallback) != ""
              && forall i :: 0 <= i < |values| && values[i] != "" ==> Le(values[i], Latest(values, fallback))
  {
    if values != [] {
      var rest := values[1..];
      LatestIsMaximum(rest, fallback);
      assert Blank(rest) <==> forall i :: 1 <= i < |values| ==> values[i] == "" by {
        if Blank(rest) { forall i | 1 <= i < |values| ensures values[i] == "" { assert rest[i - 1] == values[i]; } }
      }
      LeReflexive(values[0]);
      LeTotal(values[0], Latest(rest, fallback));
      forall i | 0 <= i < |values| && values[i] != "" ensures Le(values[i], Latest(values, fallback)) {
        if i > 0 {
          assert rest[i - 1] == values[i];
          if Le(Latest(rest, fallback), values[0]) { LeTransitive(values[i], Latest(rest, fallback), values[0]); }
        } else if Latest(values, fallback) != values[0] {
          assert Le(values[0], Latest(rest, fallback));
        }
      }
    }
  }

  // ---- One group ----

  function AddedDates(lib: Library, ids: seq<int>): (r: seq<string>)
    requires forall k :: 0 <= k < |ids| ==> ids[k] in lib.items
    ensures |r| == |ids| && forall k :: 0 <= k < |r| ==> r[k] == lib.items[ids[k]].addedAt
  {
    seq(|ids|, k requires 0 <= k < |ids| => lib.items[ids[k]].addedAt)
  }

  function UpdatedDates(lib: Library, ids: seq<int>): (r: seq<string>)
    requires forall k :: 0 <= k < |ids| ==> ids[k] in lib.items
    ensures |r| == |ids| && forall k :: 0 <= k < |r| ==> r[k] == lib.items[ids[k]].updatedAt
  {
    seq(|ids|, k requires 0 <= k < |ids| => lib.items[ids[k]].updatedAt)
  }

  function Dated(lib: Library, sorted: seq<int>): Item
    requires sorted != [] && forall k :: 0 <= k < |sorted| ==> sorted[k] in lib.items
  {
    var row := lib.items[sorted[0]];
    row.(addedAt := Earliest(AddedDates(lib, sorted), row.addedAt),
      updatedAt := Latest(UpdatedDates(lib, sorted), row.updatedAt))
  }

  // The bookmarks after the upserts for the profiles in `done`.
  ghost function Upserted(lib: Library, sorted: seq<int>, parse: string -> int, done: set<string>)
    : map<(int, string), Bookmark>
    requires sorted != []
  {
    lib.bookmarks
    + map p | p in done && Pick(lib, sorted, p, parse).Some? :: (sorted[0], p) := Kept(lib, sorted, p, parse)
  }

  ghost function MergeGroup(lib: Library, sorted: seq<int>, parse: string -> int): Library
    requires sorted != [] && forall k :: 0 <= k < |sorted| ==> sorted[k] in lib.items
  {
    var losers := set x | x in sorted[1..];
    var rows := Upserted(lib, sorted, parse, GroupProfiles(lib, sorted));
    Library((lib.items - losers)[sorted[0] := Dated(lib, sorted)], map k | k in rows && k.0 !in losers :: rows[k])
  }
}
