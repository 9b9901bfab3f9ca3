/**
 * The dashboard's side navigation (`DashboardShell`): the fixed list of
 * links, their scoping to the selected organisation, the choice of the
 * link shown as active for the current path, and the selected
 * organisation itself.
 */
module Nav {
  import opened Js

  datatype NavItem = NavItem(title: string, href: string)

  datatype OrgOption = OrgOption(id: string, name: string)

  /** `baseNavItems`, in order. */
  const BaseNavItems: seq<NavItem> := [
    NavItem("Overview", Home),
    NavItem("Connect GitHub", ConnectPath),
    NavItem("Repositories", ReposPath),
    NavItem("Org Docs", DocsPath),
    NavItem("Architecture", ArchitecturePath),
    NavItem("Chat", ChatPath)
  ]

  const Home: string := "/dashboard"
  const ConnectPath: string := Home + "/connect-github"
  const ReposPath: string := Home + "/repos"
  const OrgsPath: string := Home + "/orgs/"
  const DocsPath: string := OrgsPath + "docs"
  const ArchitecturePath: string := OrgsPath + "architecture"
  const ChatPath: string := Home + "/chat"
  const OrgQuery: string := "?org_id="

  /** A string that JavaScript treats as true: defined and not empty. */
  predicate Truthy(s: Option<string>) {
    s.Some? && s.value != ""
  }

  // ---------------------------------------------------------------------
  // scopedNavItems
  // ---------------------------------------------------------------------

  /**
   * The `map` callback of `scopedNavItems`: the repository list and the
   * chat get the organisation as an encoded query parameter, the
   * organisation's docs and architecture get it as a path segment, not
   * encoded; any other link is kept.
   */
  function ScopeItem(item: NavItem, orgId: string, encode: string -> string): NavItem {
    if StartsWith(item.href, ReposPath) || StartsWith(item.href, ChatPath) then
      item.(href := item.href + OrgQuery + encode(orgId))
    else if item.href == DocsPath then
      item.(href := OrgsPath + orgId + "/docs")
    else if item.href == ArchitecturePath then
      item.(href := OrgsPath + orgId + "/architecture")
    else item
  }

  /** `scopedNavItems`: the base links when no organisation is selected, otherwise each one scoped. */
  function ScopedNavItems(orgId: Option<string>, encode: string -> string): (items: seq<NavItem>)
    ensures |items| == |BaseNavItems|
    ensures forall i :: 0 <= i < |items| ==> items[i].title == BaseNavItems[i].title
    ensures !Truthy(orgId) ==> items == BaseNavItems
  {
    if !Truthy(orgId) then BaseNavItems
    else seq(|BaseNavItems|, i requires 0 <= i < |BaseNavItems| => ScopeItem(BaseNavItems[i], orgId.value, encode))
  }

  /** The hrefs of the links once an organisation is selected. */
  lemma ScopedHrefs(orgId: string, encode: string -> string)
    requires orgId != ""
    ensures var items := ScopedNavItems(Some(orgId), encode);
      && items[0].href == Home
      && items[1].href == ConnectPath
      && items[2].href == ReposPath + OrgQuery + encode(orgId)
      && items[3].href == OrgsPath + orgId + "/docs"
      && items[4].href == OrgsPath + orgId + "/architecture"
      && items[5].href == ChatPath + OrgQuery + encode(orgId)
  {
    Letters();
    assert |Home| < |ReposPath| && |Home| < |ChatPath|;
    NotPrefix(ConnectPath, ConnectPath, ReposPath, 11);
    NotPrefix(ConnectPath, ConnectPath, ChatPath, 12);
    NotPrefix(DocsPath, DocsPath, ReposPath, 11);
    NotPrefix(DocsPath, DocsPath, ChatPath, 11);
    NotPrefix(ArchitecturePath, ArchitecturePath, ReposPath, 11);
    NotPrefix(ArchitecturePath, ArchitecturePath, ChatPath, 11);
    assert DocsPath != ArchitecturePath by {
      assert |DocsPath| != |ArchitecturePath|;
    }
  }

  /** None of the fixed paths holds a `?`. */
  lemma NoQueryMark()
    ensures '?' !in Home && '?' !in ConnectPath && '?' !in ReposPath && '?' !in ChatPath
  {
    assert '?' !in "/connect-github" && '?' !in "/repos" && '?' !in "/chat";
  }

  /** The letters after `/dashboard/` that tell the links apart. */
  lemma Letters()
    ensures ConnectPath[11] == 'c' && ConnectPath[12] == 'o'
    ensures ReposPath[11] == 'r'
    ensures ChatPath[11] == 'c' && ChatPath[12] == 'h'
    ensures DocsPath[11] == 'o' && ArchitecturePath[11] == 'o'
  {
    assert ConnectPath[11] == "/connect-github"[1] && ConnectPath[12] == "/connect-github"[2];
    assert ReposPath[11] == "/repos"[1];
    assert ChatPath[11] == "/chat"[1] && ChatPath[12] == "/chat"[2];
    assert DocsPath[11] == OrgsPath[11] == "/orgs/"[1];
    assert ArchitecturePath[11] == OrgsPath[11];
  }

  /** A string that starts with `a` does not start with a `b` that differs from `a` at `k`. */
  lemma NotPrefix(p: string, a: string, b: string, k: nat)
    requires StartsWith(p, a) && k < |a| && k < |b| && a[k] != b[k]
    ensures !StartsWith(p, b)
  {
    assert p[k] == a[k] by {
      assert p[..|a|][k] == p[k];
    }
  }

  // ---------------------------------------------------------------------
  // activeHref
  // ---------------------------------------------------------------------

  /** `getBasePath`: `href.split('?')[0]`, everything before the first `?`. */
  function BasePath(href: string): string {
    Split(href, "?")[0]
  }

  /** A path without `?` followed by a query: the base path is the path. */
  lemma BasePathOfQuery(path: string, query: string)
    requires '?' !in path
    ensures BasePath(path + "?" + query) == path
  {
    var s := path + "?" + query;
    assert Occurs(s, "?", |path|) by {
      assert s[|path|..|path| + 1] == "?";
    }
    IndexOfFirst(s, "?");
    var v := IndexOf(s, "?").value;
    assert s[v] == s[v..v + 1][0];
    assert v == |path|;
    SplitStep(s, "?", v);
    assert s[..v] == path;
  }

  /** A path without `?` is its own base path. */
  lemma BasePathPlain(path: string)
    requires '?' !in path
    ensures BasePath(path) == path
  {
    forall j ensures !Occurs(path, "?", j) {
      if 0 <= j && j + 1 <= |path| {
        assert path[j] == path[j..j + 1][0];
      }
    }
    IndexOfFirst(path, "?");
  }

  /** The `find` callback: the overview matches only its own path, any other link every path under it. */
  predicate Matches(item: NavItem, pathname: string) {
    var base := BasePath(item.href);
    if base == Home then pathname == Home else StartsWith(pathname, base)
  }

  /** `scopedNavItems.find(...)`, as the index found. */
  function FirstMatch(items: seq<NavItem>, pathname: string): (r: Option<nat>)
    ensures r.Some? ==> r.value < |items| && Matches(items[r.value], pathname)
    ensures r.Some? ==> forall j :: 0 <= j < r.value ==> !Matches(items[j], pathname)
    ensures r.None? ==> forall j :: 0 <= j < |items| ==> !Matches(items[j], pathname)
  {
    if items == [] then None
    else if Matches(items[0], pathname) then Some(0)
    else match FirstMatch(items[1..], pathname)
      case None => None
      case Some(i) => Some(i + 1)
  }

  /** `activeHref`: `undefined` without a path, else the href of the first link that matches. */
  function ActiveHref(pathname: Option<string>, items: seq<NavItem>): (r: Option<string>)
    ensures !Truthy(pathname) ==> r.None?
    ensures r.Some? ==> exists i :: 0 <= i < |items| && items[i].href == r.value && Matches(items[i], pathname.value)
  {
    if !Truthy(pathname) then None
    else match FirstMatch(items, pathname.value)
      case None => None
      case Some(i) => Some(items[i].href)
  }

  /** The first match wins: a link that matches after only links that do not is the active one. */
  lemma ActiveIsFirst(p: string, items: seq<NavItem>, i: nat)
    requires p != "" && i < |items| && Matches(items[i], p)
    requires forall j :: 0 <= j < i ==> !Matches(items[j], p)
    ensures ActiveHref(Some(p), items) == Some(items[i].href)
  {
    var k := FirstMatch(items, p).value;
    assert k == i by {
      assert !(k < i) && !(i < k);
    }
  }

  /** The overview keeps its href, and so its base path, whatever the organisation. */
  lemma HomeBase(orgId: Option<string>, encode: string -> string)
    ensures ScopedNavItems(orgId, encode)[0].href == Home
    ensures BasePath(Home) == Home
  {
    if Truthy(orgId) {
      ScopedHrefs(orgId.value, encode);
    }
    NoQueryMark();
    BasePathPlain(Home);
  }

  /** The base path of the GitHub link. */
  lemma ConnectBase(orgId: Option<string>, encode: string -> string)
    ensures BasePath(ScopedNavItems(orgId, encode)[1].href) == ConnectPath
  {
    var h := ScopedNavItems(orgId, encode)[1].href;
    if Truthy(orgId) {
      ScopedHrefs(orgId.value, encode);
    }
    assert h == ConnectPath;
    NoQueryMark();
    BasePathPlain(h);
  }

  /** The base path of the repository link is `/dashboard/repos`, scoped or not. */
  lemma ReposBase(orgId: Option<string>, encode: string -> string)
    ensures BasePath(ScopedNavItems(orgId, encode)[2].href) == ReposPath
  {
    var h := ScopedNavItems(orgId, encode)[2].href;
    if Truthy(orgId) {
      ScopedHrefs(orgId.value, encode);
      var q := "org_id=" + encode(orgId.value);
      assert h == ReposPath + "?" + q;
      NoQueryMark();
      BasePathOfQuery(ReposPath, q);
    } else {
      assert h == ReposPath;
      NoQueryMark();
      BasePathPlain(h);
    }
  }

  /**
   * The overview link is active exactly on `/dashboard` itself: no other
   * path activates it, whatever the organisation.
   */
  lemma OverviewExact(orgId: Option<string>, encode: string -> string, p: string)
    requires p != ""
    ensures ActiveHref(Some(p), ScopedNavItems(orgId, encode)) == Some(Home) <==> p == Home
  {
    var items := ScopedNavItems(orgId, encode);
    HomeBase(orgId, encode);
    if p == Home {
      ActiveIsFirst(p, items, 0);
    } else {
      var k := FirstMatch(items, p);
      if k.Some? {
        HrefNotHome(orgId, encode, k.value);
      }
    }
  }

  /** Only the overview link has the href `/dashboard`. */
  lemma HrefNotHome(orgId: Option<string>, encode: string -> string, i: nat)
    requires 0 < i < |BaseNavItems|
    ensures ScopedNavItems(orgId, encode)[i].href != Home
  {
    var h := ScopedNavItems(orgId, encode)[i].href;
    if Truthy(orgId) {
      ScopedHrefs(orgId.value, encode);
    }
    assert |h| > |Home|;
  }

  /** Any path under `/dashboard/repos` activates the repository link, scoped as it is. */
  lemma ReposActive(orgId: Option<string>, encode: string -> string, p: string)
    requires StartsWith(p, ReposPath)
    ensures ActiveHref(Some(p), ScopedNavItems(orgId, encode)) == Some(ScopedNavItems(orgId, encode)[2].href)
  {
    HomeBase(orgId, encode);
    ConnectBase(orgId, encode);
    ReposBase(orgId, encode);
    Letters();
    NotPrefix(p, ReposPath, ConnectPath, 11);
    ThirdActive(p, ScopedNavItems(orgId, encode));
  }

  /** The third link is active when the first two do not match and it does. */
  lemma ThirdActive(p: string, items: seq<NavItem>)
    requires |items| >= 3 && p != Home && StartsWith(p, ReposPath) && !StartsWith(p, ConnectPath)
    requires BasePath(items[0].href) == Home
    requires BasePath(items[1].href) == ConnectPath
    requires BasePath(items[2].href) == ReposPath
    ensures ActiveHref(Some(p), items) == Some(items[2].href)
  {
    assert Home != ConnectPath && Home != ReposPath by {
      assert |Home| < |ConnectPath| && |Home| < |ReposPath|;
    }
    ActiveIsFirst(p, items, 2);
  }

  // ---------------------------------------------------------------------
  // The selected organisation
  // ---------------------------------------------------------------------

  /** The initial state: `currentOrgId || orgOptions?.[0]?.id`. */
  function InitialOrgId(current: Option<string>, options: seq<OrgOption>): Option<string> {
    if Truthy(current) then current
    else if options != [] then Some(options[0].id)
    else None
  }

  /** The effect: the current organisation if set, else the first option's id if set, else no change. */
  function EffectOrgId(orgId: Option<string>, current: Option<string>, options: seq<OrgOption>): Option<string> {
    if Truthy(current) then current
    else if options != [] && options[0].id != "" then Some(options[0].id)
    else orgId
  }

  /** On the first render the effect confirms the initial state: it never changes it. */
  lemma EffectKeepsInitial(current: Option<string>, options: seq<OrgOption>)
    ensures EffectOrgId(InitialOrgId(current, options), current, options) == InitialOrgId(current, options)
  {
  }

  /** Running the effect again changes nothing. */
  lemma EffectIdempotent(orgId: Option<string>, current: Option<string>, options: seq<OrgOption>)
    ensures EffectOrgId(EffectOrgId(orgId, current, options), current, options) == EffectOrgId(orgId, current, options)
  {
  }

  /** `handleOrgChange(val)`: the new selection and the URL pushed, the scoped repository list. */
  function OrgChange(val: string, encode: string -> string): (r: (Option<string>, string))
    ensures r.0 == Some(val)
    ensures BasePath(r.1) == ReposPath
  {
    NoQueryMark();
    BasePathOfQuery(ReposPath, "org_id=" + encode(val));
    assert ReposPath + OrgQuery + encode(val) == ReposPath + "?" + ("org_id=" + encode(val));
    (Some(val), ReposPath + OrgQuery + encode(val))
  }

  /** After switching to a (non-empty) organisation, the link marked active on the new page is the URL pushed. */
  lemma OrgChangeActive(val: string, encode: string -> string)
    requires val != ""
    ensures var (orgId, url) := OrgChange(val, encode);
      ActiveHref(Some(BasePath(url)), ScopedNavItems(orgId, encode)) == Some(url)
  {
    var (orgId, url) := OrgChange(val, encode);
    ReposActive(orgId, encode, ReposPath);
    ScopedHrefs(val, encode);
  }
}
