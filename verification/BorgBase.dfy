/**
 * BorgBase repositories as the API shows them: internal/borgbase/types.go, FindByName of
 * internal/borgbase/client.go, and the settings part of internal/controller/repository_controller.go.
 */
module BorgBase {
  import opened Outcomes

  const FORMAT_RESTIC := "restic"

  datatype Remote = Remote(
    id: string,
    name: string,
    region: string,
    format: string,
    quota: int,
    quotaEnabled: bool,
    alertDays: int,
    appendOnly: bool,
    usage: real,
    htpasswd: string)

  predicate IsRestic(r: Remote) {
    r.format == FORMAT_RESTIC
  }

  // ----- the restic URL

  datatype UrlError = NotRestic | NoCredentials

  /** What the URL of a repository starts with. */
  function UrlHead(id: string): string {
    "rest:https://" + id + ":"
  }

  function Host(id: string): string {
    id + ".repo.borgbase.com"
  }

  function ResticURL(r: Remote): Result<string, UrlError> {
    if !IsRestic(r) then Err(NotRestic)
    else if r.htpasswd == "" then Err(NoCredentials)
    else Ok(UrlHead(r.id) + r.htpasswd + "@" + Host(r.id))
  }

  /** The URL leads to the repository with this ID, with whatever password. */
  predicate LeadsTo(url: string, id: string) {
    UrlHead(id) <= url
  }

  lemma UrlLeadsHome(r: Remote)
    requires ResticURL(r).Ok?
    ensures LeadsTo(ResticURL(r).value, r.id) && ResticURL(r).value != ""
  {
    var tail := r.htpasswd + "@" + Host(r.id);
    assert UrlHead(r.id) + r.htpasswd + "@" + Host(r.id) == UrlHead(r.id) + tail;
    assert |UrlHead(r.id)| > 0;
  }

  predicate NoColon(s: string) {
    forall i :: 0 <= i < |s| ==> s[i] != ':'
  }

  lemma {:induction false} FirstColon(a: string, b: string, url: string)
    requires NoColon(a) && NoColon(b) && a + ":" <= url && b + ":" <= url
    ensures a == b
  {
    assert url[|a|] == (a + ":")[|a|] == ':' && url[|b|] == (b + ":")[|b|] == ':';
    assert forall i :: 0 <= i < |a| ==> url[i] == (a + ":")[i] == a[i];
    assert forall i :: 0 <= i < |b| ==> url[i] == (b + ":")[i] == b[i];
  }

  /** A URL leads to one repository only. */
  lemma LeadsToOne(url: string, id: string, id': string)
    requires LeadsTo(url, id) && LeadsTo(url, id') && NoColon(id) && NoColon(id')
    ensures id == id'
  {
    var scheme := "rest:https://";
    var n := |scheme|;
    assert UrlHead(id) == scheme + (id + ":") && UrlHead(id') == scheme + (id' + ":");
    assert id + ":" <= url[n..] by {
      assert UrlHead(id)[n..] == id + ":";
      assert url[n..][..|id + ":"|] == url[..|UrlHead(id)|][n..];
    }
    assert id' + ":" <= url[n..] by {
      assert UrlHead(id')[n..] == id' + ":";
      assert url[n..][..|id' + ":"|] == url[..|UrlHead(id')|][n..];
    }
    FirstColon(id, id', url[n..]);
  }

  /** A URL's user, password and host: the host has no at sign, the user no colon. */
  predicate ReadsAs(url: string, user: string, password: string, host: string) {
    NoColon(user) && '@' !in host && url == "rest:https://" + user + ":" + password + "@" + host
  }

  /** One restic URL names one user, the repository, with its password on its own host. */
  lemma UrlExactly(r: Remote, user: string, password: string, host: string)
    requires NoColon(r.id) && '@' !in r.id
    ensures ResticURL(r).Ok? <==> r.format == "restic" && r.htpasswd != ""
    ensures ResticURL(r).Ok? ==>
      (ReadsAs(ResticURL(r).value, user, password, host) <==>
        user == r.id && password == r.htpasswd && host == r.id + ".repo.borgbase.com")
  {
    if ResticURL(r).Ok? {
      var url := ResticURL(r).value;
      assert '@' !in Host(r.id);
      if ReadsAs(url, user, password, host) {
        var head, head' := UrlHead(r.id), UrlHead(user);
        assert url == head + (r.htpasswd + "@" + Host(r.id)) && url == head' + (password + "@" + host);
        LeadsToOne(url, r.id, user);
        assert url[|head|..] == r.htpasswd + "@" + Host(r.id) && url[|head|..] == password + "@" + host;
        LastAt(r.htpasswd, Host(r.id), password, host);
      }
    }
  }

  lemma LastAt(a: string, b: string, a': string, b': string)
    requires '@' !in b && '@' !in b' && a + "@" + b == a' + "@" + b'
    ensures a == a' && b == b'
  {
    var s := a + "@" + b;
    assert s[|a|] == '@' && s[|a'|] == '@';
    assert forall i :: |a| < i < |s| ==> s[i] == b[i - |a| - 1];
    assert forall i :: |a'| < i < |s| ==> s[i] == b'[i - |a'| - 1];
    assert |a| == |a'|;
    assert s[..|a|] == a && s[..|a|] == a' && s[|a| + 1..] == b && s[|a| + 1..] == b';
  }

  // ----- finding a repository by name

  datatype Found = FoundOne(remote: Remote) | FoundNone | FoundMany

  function Named(list: seq<Remote>, name: string): seq<Remote> {
    if list == [] then []
    else
      var init := Named(list[..|list| - 1], name);
      if list[|list| - 1].name == name then init + [list[|list| - 1]] else init
  }

  function Lookup(list: seq<Remote>, name: string): Found {
    var named := Named(list, name);
    if |named| == 0 then FoundNone else if |named| == 1 then FoundOne(named[0]) else FoundMany
  }

  lemma {:induction false} NamedGrows(list: seq<Remote>, k: nat, name: string)
    requires k <= |list|
    ensures Named(list[..k], name) <= Named(list, name)
    decreases |list| - k
  {
    if k == |list| {
      assert list[..k] == list;
    } else {
      assert list[..k + 1][..k] == list[..k];
      NamedGrows(list, k + 1, name);
    }
  }

  method FindByName(list: seq<Remote>, name: string) returns (r: Found)
    ensures r == Lookup(list, name)
  {
    var found: Option<Remote> := None;
    for i := 0 to |list|
      invariant Named(list[..i], name) == if found.Some? then [found.value] else []
    {
      assert list[..i + 1][..i] == list[..i];
      if list[i].name != name {
        continue;
      }
      if found.Some? {
        NamedGrows(list, i + 1, name);
        return FoundMany;
      }
      found := Some(list[i]);
    }
    assert list[..|list|] == list;
    if found.None? {
      return FoundNone;
    }
    return FoundOne(found.value);
  }

  lemma {:induction false} NamedElements(list: seq<Remote>, name: string)
    ensures forall r :: r in Named(list, name) <==> r in list && r.name == name
    ensures Distinct(list) ==> Distinct(Named(list, name))
  {
    if list != [] {
      var init, last := list[..|list| - 1], list[|list| - 1];
      NamedElements(init, name);
      assert list == init + [last];
    }
  }

  predicate Distinct(list: seq<Remote>) {
    forall i, j :: 0 <= i < j < |list| ==> list[i] != list[j]
  }

  predicate OnlyOne(list: seq<Remote>, r: Remote) {
    forall q :: q in list && q.name == r.name ==> q == r
  }

  /** A repository is taken only if it is the one with exactly that name, and created only if there is none. */
  lemma LookupExactly(list: seq<Remote>, name: string)
    requires Distinct(list)
    ensures Lookup(list, name).FoundNone? <==> forall r :: r in list ==> r.name != name
    ensures forall r ::
      Lookup(list, name) == FoundOne(r) <==> r in list && r.name == name && OnlyOne(list, r)
  {
    var named := Named(list, name);
    NamedElements(list, name);
    if |named| == 0 {
      assert forall r :: r !in named;
    } else if |named| == 1 {
      assert named[0] in named;
      assert forall r :: r in named ==> r == named[0];
    } else {
      assert named[0] in named && named[1] in named && named[0] != named[1];
    }
  }

  // ----- settings

  datatype EditOptions = EditOptions(
    quota: Option<int>,
    quotaEnabled: Option<bool>,
    alertDays: Option<int>,
    appendOnly: Option<bool>)

  predicate IsZero(o: EditOptions) {
    o.quota.None? && o.quotaEnabled.None? && o.alertDays.None? && o.appendOnly.None?
  }

  function OrElse<T>(o: Option<T>, d: T): T {
    if o.Some? then o.value else d
  }

  /** What Edit makes of a repository; options that are not sent are left alone. */
  function Edited(r: Remote, o: EditOptions): Remote {
    r.(quota := OrElse(o.quota, r.quota), quotaEnabled := OrElse(o.quotaEnabled, r.quotaEnabled),
       alertDays := OrElse(o.alertDays, r.alertDays), appendOnly := OrElse(o.appendOnly, r.appendOnly))
  }

  /** The settings part of a Repository's spec. */
  datatype Settings = Settings(quotaGiB: Option<int>, alertDays: Option<int>, appendOnly: bool)

  /** The remote is set up as the spec asks; an alert that the spec leaves open may be anything. */
  predicate Matches(want: Settings, r: Remote) {
    && (want.quotaGiB.Some? ==> r.quotaEnabled && r.quota == want.quotaGiB.value)
    && (want.quotaGiB.None? ==> !r.quotaEnabled)
    && (want.alertDays.Some? ==> r.alertDays == want.alertDays.value)
    && r.appendOnly == want.appendOnly
  }

  function SettingsEdit(want: Settings, r: Remote): EditOptions {
    var o := EditOptions(None, None, None, None);
    var o := match want.quotaGiB
      case Some(q) => if !r.quotaEnabled || q != r.quota then o.(quotaEnabled := Some(true), quota := Some(q)) else o
      case None => if r.quotaEnabled then o.(quotaEnabled := Some(false), quota := Some(r.quota)) else o;
    var o := if want.alertDays.Some? && want.alertDays.value != r.alertDays then o.(alertDays := want.alertDays) else o;
    if want.appendOnly != r.appendOnly then o.(appendOnly := Some(want.appendOnly)) else o
  }

  /** An Edit is sent exactly when the remote does not match, it makes it match, and quota travels with its switch. */
  lemma SettingsConverge(want: Settings, r: Remote)
    ensures IsZero(SettingsEdit(want, r)) <==> Matches(want, r)
    ensures Matches(want, Edited(r, SettingsEdit(want, r)))
    ensures SettingsEdit(want, r).quota.Some? <==> SettingsEdit(want, r).quotaEnabled.Some?
    ensures var e := Edited(r, SettingsEdit(want, r));
      e == r.(quota := e.quota, quotaEnabled := e.quotaEnabled, alertDays := e.alertDays, appendOnly := e.appendOnly)
      && (want.quotaGiB.None? ==> e.quota == r.quota) && (want.alertDays.None? ==> e.alertDays == r.alertDays)
  {
  }

  /**
   * Which options of an Edit could be left out: never alertDays or appendOnly, and never both quota options, but the
   * quota switch if the remote has it so already, and the quota itself if none is wanted or the remote has it so.
   */
  lemma RedundantOptionExactly(want: Settings, r: Remote)
    ensures var e := SettingsEdit(want, r);
      && (Matches(want, Edited(r, e.(alertDays := None))) <==> e.alertDays.None?)
      && (Matches(want, Edited(r, e.(appendOnly := None))) <==> e.appendOnly.None?)
      && (Matches(want, Edited(r, e.(quota := None, quotaEnabled := None))) <==> e.quota.None?)
      && (e.quotaEnabled.Some? ==>
            (Matches(want, Edited(r, e.(quotaEnabled := None))) <==> r.quotaEnabled == want.quotaGiB.Some?))
      && (e.quota.Some? ==>
            (Matches(want, Edited(r, e.(quota := None))) <==> want.quotaGiB.None? || want.quotaGiB.value == r.quota))
  {
  }
}
