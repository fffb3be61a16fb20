/**
 The cached (Realm) forms of the wire records and the conversions both ways.
 Stored rows keep enumerations as their raw strings, so reading one back can fail;
 `cachedAt` is the clock reading taken when the row was built.
 */
module Stored {
  import opened Wrappers
  import opened Models
  import opened Seqs

  datatype StoredFileItem = StoredFileItem(id: int, url: string, kind: string)

  datatype StoredStatisticItem = StoredStatisticItem(userId: int, kind: string, dates: seq<int>, cachedAt: int)

  datatype StoredUser = StoredUser(
    id: int, sex: string, username: string, isOnline: bool, age: int,
    files: seq<StoredFileItem>, cachedAt: int)

  /** `RealmFileItem.toFileItem`. */
  function ToFileItem(f: StoredFileItem): (r: Option<FileItem>)
    ensures r.None? <==> f.kind != "avatar"
    ensures r.Some? ==> r.value.id == f.id && r.value.url == f.url
  {
    match ParseFileType(f.kind)
    case None => None
    case Some(t) => Some(FileItem(f.id, f.url, t))
  }

  /** `RealmFileItem(from:)`: copies id, url and the type's raw string; reads back unchanged. */
  function FromFileItem(f: FileItem): (r: StoredFileItem)
    ensures r.id == f.id && r.url == f.url && r.kind == FileTypeRaw(f.kind)
    ensures ToFileItem(r) == Some(f)
  {
    match f.kind
    case Avatar => StoredFileItem(f.id, f.url, FileTypeRaw(f.kind))
  }

  /** `RealmStatisticItem.toStatisticItem`; `cachedAt` takes no part. */
  function ToStatisticItem(s: StoredStatisticItem): (r: Option<StatisticItem>)
    ensures r.None? <==> ParseStatisticType(s.kind).None?
    ensures r.Some? ==> r.value.userId == s.userId && r.value.dates == s.dates
    ensures r.Some? ==> StatisticTypeRaw(r.value.kind) == s.kind
  {
    match ParseStatisticType(s.kind)
    case None => None
    case Some(t) => Some(StatisticItem(s.userId, t, s.dates))
  }

  /** `RealmStatisticItem(from:)` at clock reading `now`: copies the fields, dates in order with duplicates. */
  function FromStatisticItem(s: StatisticItem, now: int): (r: StoredStatisticItem)
    ensures r.userId == s.userId && r.kind == StatisticTypeRaw(s.kind) && r.dates == s.dates
    ensures ToStatisticItem(r) == Some(s)
  {
    StoredStatisticItem(s.userId, StatisticTypeRaw(s.kind), s.dates, now)
  }

  /** `files.compactMap { $0.toFileItem() }`: files of an unknown type are dropped, order kept. */
  function ToFileItems(fs: seq<StoredFileItem>): seq<FileItem> {
    CompactMap(fs, ToFileItem)
  }

  function FromFileItems(fs: seq<FileItem>): (r: seq<StoredFileItem>)
    ensures |r| == |fs| && forall i :: 0 <= i < |fs| ==> r[i] == FromFileItem(fs[i])
  {
    seq(|fs|, i requires 0 <= i < |fs| => FromFileItem(fs[i]))
  }

  /** Storing a list of files and reading it back gives the same list. */
  lemma FileItemsRoundTrip(fs: seq<FileItem>)
    ensures ToFileItems(FromFileItems(fs)) == fs
  {
    CompactMapInverse(FromFileItems(fs), fs, ToFileItem);
  }

  /** `RealmUser.toUser`: `nil` exactly when the sex string is neither "M" nor "W"; bad files are dropped. */
  function ToUser(u: StoredUser): (r: Option<User>)
    ensures r.None? <==> u.sex != "M" && u.sex != "W"
    ensures r.Some? ==> r.value.id == u.id && r.value.username == u.username
    ensures r.Some? ==> r.value.isOnline == u.isOnline && r.value.age == u.age
    ensures r.Some? ==> SexRaw(r.value.sex) == u.sex && r.value.files == ToFileItems(u.files)
  {
    match ParseSex(u.sex)
    case None => None
    case Some(sex) => Some(User(u.id, sex, u.username, u.isOnline, u.age, ToFileItems(u.files)))
  }

  /** A stored file of an unknown type is dropped; the user still reads back, with its other files. */
  lemma UnknownFileDropped(u: StoredUser, f: StoredFileItem)
    requires f.kind != "avatar"
    ensures ToUser(u.(files := u.files + [f])) == ToUser(u)
  {
    CompactMapSnoc(u.files, f, ToFileItem);
  }

  /** `RealmUser(from:)` at clock reading `now`: copies every field, files in order. */
  function FromUser(u: User, now: int): (r: StoredUser)
    ensures r.id == u.id && r.sex == SexRaw(u.sex) && r.username == u.username
    ensures r.isOnline == u.isOnline && r.age == u.age && |r.files| == |u.files|
    ensures forall i :: 0 <= i < |u.files| ==> r.files[i] == FromFileItem(u.files[i])
    ensures ToUser(r) == Some(u)
  {
    FileItemsRoundTrip(u.files);
    StoredUser(u.id, SexRaw(u.sex), u.username, u.isOnline, u.age, FromFileItems(u.files), now)
  }

  /** The cache timestamp plays no part in reading a row back. */
  lemma CachedAtIgnored(s: StoredStatisticItem, u: StoredUser, t: int)
    ensures ToStatisticItem(s.(cachedAt := t)) == ToStatisticItem(s)
    ensures ToUser(u.(cachedAt := t)) == ToUser(u)
  {
  }
}
