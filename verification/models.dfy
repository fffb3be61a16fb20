/** The wire records the API delivers and the services hand around (NetworkLayerFramework). */
module Models {
  import opened Wrappers

  datatype StatisticType = View | Subscription | Unsubscription

  /** `StatisticType.rawValue`. */
  function StatisticTypeRaw(t: StatisticType): string {
    match t
    case View => "view"
    case Subscription => "subscription"
    case Unsubscription => "unsubscription"
  }

  /** `StatisticType(rawValue:)`: exact, case-sensitive tokens. */
  function ParseStatisticType(raw: string): (r: Option<StatisticType>)
    ensures r.Some? ==> StatisticTypeRaw(r.value) == raw
    ensures forall t :: raw == StatisticTypeRaw(t) ==> r == Some(t)
  {
    if raw == "view" then Some(View)
    else if raw == "subscription" then Some(Subscription)
    else if raw == "unsubscription" then Some(Unsubscription)
    else None
  }

  /** One batch of events of one kind for one user; each entry of `dates` is one occurrence. */
  datatype StatisticItem = StatisticItem(userId: int, kind: StatisticType, dates: seq<int>)

  datatype Sex = M | W

  function SexRaw(s: Sex): string {
    match s
    case M => "M"
    case W => "W"
  }

  function ParseSex(raw: string): (r: Option<Sex>)
    ensures r.Some? ==> SexRaw(r.value) == raw
    ensures forall s :: raw == SexRaw(s) ==> r == Some(s)
  {
    if raw == "M" then Some(M) else if raw == "W" then Some(W) else None
  }

  datatype FileType = Avatar

  function FileTypeRaw(t: FileType): string {
    match t
    case Avatar => "avatar"
  }

  function ParseFileType(raw: string): (r: Option<FileType>)
    ensures r.Some? <==> raw == "avatar"
    ensures r.Some? ==> FileTypeRaw(r.value) == raw
  {
    if raw == "avatar" then Some(Avatar) else None
  }

  datatype FileItem = FileItem(id: int, url: string, kind: FileType)

  datatype User = User(id: int, sex: Sex, username: string, isOnline: bool, age: int, files: seq<FileItem>)
}
