// The music tables, their declared constraints, and the SQL statements of the path
// migration as functions on table contents. Tables whose rows belong to a track are
// keyed by (track id, x): x is the profile, the playlist or the artist of the row.
module MusicTables {
  import opened Text

  // `other` stands for the columns the migration never reads or writes.
  datatype Track = Track(album: int, filePath: string, relPath: string,
                         available: bool, updatedAt: string, other: string)
  datatype Album = Album(directoryPath: string, relPath: string, updatedAt: string,
                         cover: Option<string>, other: string)
  datatype History = History(plays: nat, completed: nat, position: real, duration: real,
                             playedAt: Option<string>, updatedAt: string)
  datatype PlaylistRow = PlaylistRow(position: nat, addedAt: string)
  datatype Session = Session(track: int, other: string)

  datatype Tables = Tables(
    tracks: map<int, Track>,
    albums: map<int, Album>,
    artists: set<int>,
    playlists: set<int>,
    trackArtists: map<(int, int), nat>,
    albumArtists: map<(int, int), nat>,
    favorites: map<(int, string), string>,
    history: map<(int, string), History>,
    playlistTracks: map<(int, int), PlaylistRow>,
    sessions: map<string, Session>)

  // ---- Constraints (primary keys hold because tables are maps) ----

  ghost predicate UniqueFilePaths(tracks: map<int, Track>) {
    forall t, u :: t in tracks && u in tracks && tracks[t].filePath == tracks[u].filePath ==> t == u
  }

  ghost predicate UniqueDirectories(albums: map<int, Album>) {
    forall a, b :: a in albums && b in albums && albums[a].directoryPath == albums[b].directoryPath ==> a == b
  }

  // UNIQUE (owner, position) on an artist relation keyed by (owner, artist)
  ghost predicate OneArtistPerPosition(rows: map<(int, int), nat>) {
    forall k, l :: k in rows && l in rows && k.0 == l.0 && rows[k] == rows[l] ==> k == l
  }

  // UNIQUE (playlist_id, position); rows are keyed by (track, playlist)
  ghost predicate OneTrackPerPosition(rows: map<(int, int), PlaylistRow>) {
    forall k, l :: k in rows && l in rows && k.1 == l.1 && rows[k].position == rows[l].position ==> k == l
  }

  ghost predicate OwnedBy<X(!new), V>(rows: map<(int, X), V>, owners: set<int>) {
    forall k :: k in rows ==> k.0 in owners
  }

  ghost predicate Constraints(s: Tables) {
    && UniqueFilePaths(s.tracks)
    && UniqueDirectories(s.albums)
    && OneArtistPerPosition(s.trackArtists)
    && OneArtistPerPosition(s.albumArtists)
    && OneTrackPerPosition(s.playlistTracks)
    && (forall t :: t in s.tracks ==> s.tracks[t].album in s.albums)
    && OwnedBy(s.trackArtists, s.tracks.Keys)
    && (forall k :: k in s.trackArtists ==> k.1 in s.artists)
    && OwnedBy(s.albumArtists, s.albums.Keys)
    && (forall k :: k in s.albumArtists ==> k.1 in s.artists)
    && OwnedBy(s.favorites, s.tracks.Keys)
    && OwnedBy(s.history, s.tracks.Keys)
    && OwnedBy(s.playlistTracks, s.tracks.Keys)
    && (forall k :: k in s.playlistTracks ==> k.1 in s.playlists)
    && (forall i :: i in s.sessions ==> s.sessions[i].track in s.tracks)
  }

  // ---- Statements on one table ----

  function RowsOf<X(==), V>(rows: map<(int, X), V>, owner: int): set<X> {
    set k | k in rows && k.0 == owner :: k.1
  }

  // Deletes the rows of one owner.
  function Without<X(==), V>(rows: map<(int, X), V>, owner: int): map<(int, X), V> {
    map k | k in rows && k.0 != owner :: rows[k]
  }

  // Copies the loser's rows to the survivor, where it has none of its own.
  function InsertOrIgnore<X(==), V>(rows: map<(int, X), V>, survivor: int, loser: int): map<(int, X), V> {
    (map x | x in RowsOf(rows, loser) :: (survivor, x) := rows[(loser, x)]) + rows
  }

  // Deletes those rows of the loser that the survivor has too.
  function DeleteDuplicates<X(==), V>(rows: map<(int, X), V>, survivor: int, loser: int): map<(int, X), V> {
    map k | k in rows && !(k.0 == loser && (survivor, k.1) in rows) :: rows[k]
  }

  // Renames the owner of the loser's rows: accepted when no renamed row
  // meets a row that is already there (primary key) and the new owner exists.
  ghost predicate CanReassign<X(!new), V>(rows: map<(int, X), V>, survivor: int, loser: int, owners: set<int>) {
    (forall x :: (loser, x) in rows ==> (survivor, x) !in rows && survivor in owners) || survivor == loser
  }

  function Reassign<X(==), V>(rows: map<(int, X), V>, survivor: int, loser: int): map<(int, X), V> {
    (map x | x in RowsOf(rows, loser) :: (survivor, x) := rows[(loser, x)]) + Without(rows, loser)
  }

  function ReassignSessions(rows: map<string, Session>, survivor: int, loser: int): map<string, Session> {
    map i | i in rows :: if rows[i].track == loser then rows[i].(track := survivor) else rows[i]
  }

  // What the history upsert makes of a row that is already there.
  function MergeHistory(row: History, excluded: History): History {
    var newer := Le(row.updatedAt, excluded.updatedAt);
    History(
      if row.plays < excluded.plays then excluded.plays else row.plays,
      if row.completed < excluded.completed then excluded.completed else row.completed,
      if newer then excluded.position else row.position,
      if newer then excluded.duration else row.duration,
      if Le(Coalesce(row.playedAt), Coalesce(excluded.playedAt)) then excluded.playedAt else row.playedAt,
      Max(row.updatedAt, excluded.updatedAt))
  }

  // NULL counts as the empty text.
  function Coalesce(x: Option<string>): string {
    if x.Some? then x.value else ""
  }

  function UpsertHistory(rows: map<(int, string), History>, k: (int, string), excluded: History)
    : map<(int, string), History>
  {
    rows[k := if k in rows then MergeHistory(rows[k], excluded) else excluded]
  }

  // ---- What the statements for one loser add up to ----

  function Renamed<X>(k: (int, X), survivor: int, loser: int): (int, X) {
    if k.0 == loser then (survivor, k.1) else k
  }

  function RenamedKeys<X(==)>(ks: set<(int, X)>, survivor: int, loser: int): set<(int, X)> {
    set k | k in ks :: Renamed(k, survivor, loser)
  }

  // The survivor's own row wins; the loser's row fills the gaps.
  function TakeOver<X(==), V>(rows: map<(int, X), V>, survivor: int, loser: int): map<(int, X), V> {
    (map x | x in RowsOf(rows, loser) && (survivor, x) !in rows :: (survivor, x) := rows[(loser, x)])
    + Without(rows, loser)
  }

  // History rows of the survivor after the rows of the profiles in `done` were upserted.
  function Upserted(rows: map<(int, string), History>, survivor: int, loser: int, done: set<string>)
    : map<(int, string), History>
    requires forall p :: p in done ==> (loser, p) in rows
  {
    rows + map p | p in done ::
      (survivor, p) :=
        if (survivor, p) in rows then MergeHistory(rows[(survivor, p)], rows[(loser, p)]) else rows[(loser, p)]
  }

  function FoldHistory(rows: map<(int, string), History>, survivor: int, loser: int): map<(int, string), History> {
    Without(Upserted(rows, survivor, loser, RowsOf(rows, loser)), loser)
  }

  lemma FavoriteStatements<X, V>(rows: map<(int, X), V>, survivor: int, loser: int)
    requires survivor != loser
    ensures Without(InsertOrIgnore(rows, survivor, loser), loser) == TakeOver(rows, survivor, loser)
  {
  }

  lemma PlaylistStatements<X(!new), V>(rows: map<(int, X), V>, survivor: int, loser: int, owners: set<int>)
    requires survivor != loser && survivor in owners
    ensures CanReassign(DeleteDuplicates(rows, survivor, loser), survivor, loser, owners)
    ensures Reassign(DeleteDuplicates(rows, survivor, loser), survivor, loser) == TakeOver(rows, survivor, loser)
    ensures Without(TakeOver(rows, survivor, loser), loser) == TakeOver(rows, survivor, loser)
  {
  }

  // The keys that renaming the loser to the survivor leaves.
  lemma KeysAreRenamed<X(!new), V, W>(rows: map<(int, X), V>, r: map<(int, X), W>, survivor: int, loser: int)
    requires survivor != loser
    requires forall k :: k in r <==> k.0 != loser && (k in rows || (k.0 == survivor && (loser, k.1) in rows))
    ensures r.Keys == RenamedKeys(rows.Keys, survivor, loser)
  {
    forall k | k in RenamedKeys(rows.Keys, survivor, loser) ensures k in r {
      var j :| j in rows && k == Renamed(j, survivor, loser);
      assert j == (j.0, j.1);
    }
    forall k | k in r ensures k in RenamedKeys(rows.Keys, survivor, loser) {
      if k in rows {
        assert k == Renamed(k, survivor, loser);
      } else {
        assert k == Renamed((loser, k.1), survivor, loser);
      }
    }
  }

  lemma TakeOverKeys<X(!new), V>(rows: map<(int, X), V>, survivor: int, loser: int)
    requires survivor != loser
    ensures TakeOver(rows, survivor, loser).Keys == RenamedKeys(rows.Keys, survivor, loser)
  {
    KeysAreRenamed(rows, TakeOver(rows, survivor, loser), survivor, loser);
  }

  lemma FoldHistoryKeys(rows: map<(int, string), History>, survivor: int, loser: int)
    requires survivor != loser
    ensures FoldHistory(rows, survivor, loser).Keys == RenamedKeys(rows.Keys, survivor, loser)
  {
    hide MergeHistory;
    KeysAreRenamed(rows, FoldHistory(rows, survivor, loser), survivor, loser);
  }
}
