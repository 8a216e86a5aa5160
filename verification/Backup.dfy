/** The ScheduledBackup fields that decide what a run does (api/v1/scheduledbackup_types.go). */
module Backup {
  import opened Outcomes
  import opened Text

  type int32 = n: int | -INT32_LIMIT <= n < INT32_LIMIT

  datatype SourceType = CNPG | MariaDB | Files | Unknown(name: string) {
    function Name(): string {
      match this
      case CNPG => "cnpg"
      case MariaDB => "mariadb"
      case Files => "files"
      case Unknown(n) => n
    }

    predicate IsDatabase() {
      CNPG? || MariaDB?
    }
  }

  datatype Source = Source(
    kind: SourceType,
    tag: string,
    path: string,
    exclude: seq<string>,
    database: string,
    extraArgs: seq<string>)
  {
    function EffectiveTag(): (t: string)
      ensures t != []
      ensures tag != [] ==> t == tag
    {
      if tag != [] then tag else if kind.Files? then "files" else "db"
    }

    function EffectivePath(): (p: string)
      ensures p != []
      ensures path != [] ==> p == path
    {
      if path != [] then path else "."
    }
  }

  datatype Retention = Retention(
    last: Option<int32>,
    hourly: Option<int32>,
    daily: Option<int32>,
    weekly: Option<int32>,
    monthly: Option<int32>,
    yearly: Option<int32>)

  /** A Go duration: its nanoseconds and the text of its String method. */
  datatype Duration = Duration(nanos: int, text: string)

  datatype Spec = Spec(
    sources: seq<Source>,
    script: string,
    retention: Option<Retention>,
    retryLock: Option<Duration>)

  /** What a source that leaves them open is backed up as. */
  lemma Defaults(src: Source)
    requires !src.kind.Unknown?
    ensures src.tag == "" && src.kind == Files ==> src.EffectiveTag() == "files"
    ensures src.tag == "" && (src.kind == CNPG || src.kind == MariaDB) ==> src.EffectiveTag() == "db"
    ensures src.path == "" ==> src.EffectivePath() == "."
    ensures src.kind.Name() in {"cnpg", "mariadb", "files"} && (src.kind.IsDatabase() <==> src.kind != Files)
  {
  }

  /** The tag pattern the API server enforces, or no tag at all. */
  predicate TagAdmitted(tag: string) {
    forall i :: 0 <= i < |tag| ==> TagChar(tag[i])
  }

  predicate TagChar(c: char) {
    'A' <= c <= 'Z' || 'a' <= c <= 'z' || '0' <= c <= '9' || c == '_' || c == '.' || c == '-'
  }

  /** The characters a printed Go duration is made of. */
  predicate DurationChar(c: char) {
    '0' <= c <= '9' || 'a' <= c <= 'z' || c == '.' || c == '-' || c == '\U{B5}'
  }

  predicate DurationText(t: string) {
    t != [] && forall i :: 0 <= i < |t| ==> DurationChar(t[i])
  }
}
