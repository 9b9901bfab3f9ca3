/**
 * The landing page's login dialog (`HomeClient`): the error it shows and
 * how opening or closing the dialog rewrites the page's query string.
 * The query is a list of name/value pairs with the `set` and `delete`
 * operations of `URLSearchParams` (section 6.2 of the WHATWG URL
 * Standard).
 */
module Home {
  import opened Js

  datatype Param = Param(name: string, value: string)

  const LoginParam := "login"
  const ErrorParam := "error"

  /** A string that JavaScript treats as true: defined and not empty. */
  predicate Truthy(s: Option<string>) {
    s.Some? && s.value != ""
  }

  // ---------------------------------------------------------------------
  // Queries on the pair list
  // ---------------------------------------------------------------------

  /** The index of the first pair named `name`. */
  function First(list: seq<Param>, name: string): (r: Option<nat>)
    ensures r.Some? ==> r.value < |list| && list[r.value].name == name
    ensures r.Some? ==> forall j :: 0 <= j < r.value ==> list[j].name != name
    ensures r.None? ==> forall j :: 0 <= j < |list| ==> list[j].name != name
  {
    if list == [] then None
    else if list[0].name == name then Some(0)
    else match First(list[1..], name)
      case None => None
      case Some(i) => Some(i + 1)
  }

  /** `get(name)`: the value of the first pair named `name`, `null` when there is none. */
  function Get(list: seq<Param>, name: string): (r: Option<string>)
    ensures r.None? <==> forall j :: 0 <= j < |list| ==> list[j].name != name
    ensures r.Some? ==> Param(name, r.value) in list
    ensures r.Some? ==> forall k :: (0 <= k < |list| && list[k].name == name &&
                                     (forall j :: 0 <= j < k ==> list[j].name != name)) ==> list[k].value == r.value
  {
    match First(list, name)
    case None => None
    case Some(i) => Some(list[i].value)
  }

  /** At most one pair is named `name`. */
  predicate AtMostOne(list: seq<Param>, name: string) {
    forall i, j :: 0 <= i < j < |list| && list[i].name == name ==> list[j].name != name
  }

  // ---------------------------------------------------------------------
  // delete and set
  // ---------------------------------------------------------------------

  /** `delete(name)`: remove every pair named `name`, keeping the others in order. */
  function Deleted(list: seq<Param>, name: string): (r: seq<Param>)
    ensures forall p :: p in r ==> p in list && p.name != name
    ensures forall p :: p in list && p.name != name ==> p in r
  {
    if list == [] then []
    else (if list[0].name == name then [] else [list[0]]) + Deleted(list[1..], name)
  }

  lemma {:induction false} DeletedAppend(a: seq<Param>, b: seq<Param>, name: string)
    ensures Deleted(a + b, name) == Deleted(a, name) + Deleted(b, name)
  {
    if a == [] {
      assert a + b == b;
    } else {
      assert (a + b)[1..] == a[1..] + b;
      DeletedAppend(a[1..], b, name);
    }
  }

  /** Deleting a name that no pair has changes nothing. */
  lemma {:induction false} DeletedAbsent(list: seq<Param>, name: string)
    requires forall j :: 0 <= j < |list| ==> list[j].name != name
    ensures Deleted(list, name) == list
  {
    if list != [] {
      DeletedAbsent(list[1..], name);
    }
  }

  lemma DeletedNamed(p: Param, name: string)
    requires p.name == name
    ensures Deleted([p], name) == []
  {
    assert [p][1..] == [];
  }

  /** Deleting twice deletes once. */
  lemma DeletedIdempotent(list: seq<Param>, name: string)
    ensures Deleted(Deleted(list, name), name) == Deleted(list, name)
  {
    var r := Deleted(list, name);
    forall j | 0 <= j < |r| ensures r[j].name != name {
      assert r[j] in r;
    }
    DeletedAbsent(r, name);
  }

  /** Deleting two names: the order does not matter. */
  lemma {:induction false} DeletedCommute(list: seq<Param>, a: string, b: string)
    ensures Deleted(Deleted(list, a), b) == Deleted(Deleted(list, b), a)
  {
    if list != [] {
      var x := list[0];
      var rest := list[1..];
      assert list == [x] + rest;
      DeletedAppend([x], rest, a);
      DeletedAppend([x], rest, b);
      DeletedAppend(if x.name == a then [] else [x], Deleted(rest, a), b);
      DeletedAppend(if x.name == b then [] else [x], Deleted(rest, b), a);
      DeletedCommute(rest, a, b);
    }
  }

  /**
   * `set(name, value)`: when a pair named `name` exists, the first one
   * takes the new value and the later ones are removed; otherwise the pair
   * is appended.
   */
  function SetParam(list: seq<Param>, name: string, value: string): seq<Param> {
    match First(list, name)
    case None => list + [Param(name, value)]
    case Some(i) => list[..i] + [Param(name, value)] + Deleted(list[i + 1..], name)
  }

  /**
   * After `set`, exactly one pair has the name and it holds the value; the
   * pairs with other names are those of before, in the same order; an
   * existing first pair keeps its place.
   */
  lemma SetParamSpec(list: seq<Param>, name: string, value: string)
    ensures var r := SetParam(list, name, value);
      && Get(r, name) == Some(value)
      && AtMostOne(r, name)
      && Deleted(r, name) == Deleted(list, name)
      && (First(list, name).Some? ==> First(r, name) == First(list, name))
      && (First(list, name).None? ==> r == list + [Param(name, value)])
  {
    var p := Param(name, value);
    match First(list, name)
    case None =>
      SetParamAppends(list, name, value);
      DeletedAppend(list, [p], name);
      DeletedAbsent(list, name);
    case Some(i) =>
      SetParamReplaces(list, name, value, i);
      SetParamOthers(list, name, value, i);
  }

  /** `set` of a new name: the pair is appended, and it is the only one. */
  lemma SetParamAppends(list: seq<Param>, name: string, value: string)
    requires First(list, name).None?
    ensures var r := SetParam(list, name, value);
      First(r, name) == Some(|list|) && r[|list|].value == value && AtMostOne(r, name)
  {
    var r := SetParam(list, name, value);
    assert r[|list|] == Param(name, value);
    assert forall j :: 0 <= j < |list| ==> r[j] == list[j];
  }

  /** `set` of a present name: the first pair takes the value in place and no later pair has the name. */
  lemma SetParamReplaces(list: seq<Param>, name: string, value: string, i: nat)
    requires First(list, name) == Some(i)
    ensures var r := SetParam(list, name, value);
      First(r, name) == Some(i) && r[i].value == value && AtMostOne(r, name)
  {
    var r := SetParam(list, name, value);
    var pre, post := list[..i], Deleted(list[i + 1..], name);
    assert r == pre + [Param(name, value)] + post;
    assert forall j :: 0 <= j < i ==> r[j].name != name;
    forall j | i < j < |r| ensures r[j].name != name {
      assert r[j] == post[j - i - 1];
      assert post[j - i - 1] in post;
    }
    FirstIs(r, name, i);
  }

  /** The first pair named `name` is the one at `i` when the pairs before it have other names. */
  lemma FirstIs(list: seq<Param>, name: string, i: nat)
    requires i < |list| && list[i].name == name
    requires forall j :: 0 <= j < i ==> list[j].name != name
    ensures First(list, name) == Some(i)
  {
    var k := First(list, name);
    assert k.Some?;
    assert !(k.value < i) && !(i < k.value);
  }

  /** `set` of a present name keeps the pairs with other names, in order. */
  lemma SetParamOthers(list: seq<Param>, name: string, value: string, i: nat)
    requires First(list, name) == Some(i)
    ensures Deleted(SetParam(list, name, value), name) == Deleted(list, name)
  {
    var p := Param(name, value);
    var pre, rest := list[..i], list[i + 1..];
    Around(list, i);
    var post := Deleted(rest, name);
    assert SetParam(list, name, value) == pre + [p] + post;
    DeletedAbsent(pre, name);
    DeletedNamed(p, name);
    DeletedNamed(list[i], name);
    DeletedAppend(pre + [p], post, name);
    DeletedAppend(pre, [p], name);
    DeletedIdempotent(rest, name);
    DeletedAppend(pre + [list[i]], rest, name);
    DeletedAppend(pre, [list[i]], name);
  }

  lemma Around<T>(s: seq<T>, i: nat)
    requires i < |s|
    ensures s == s[..i] + [s[i]] + s[i + 1..]
  {
  }

  /** Setting the same pair twice sets it once. */
  lemma SetParamIdempotent(list: seq<Param>, name: string, value: string)
    ensures SetParam(SetParam(list, name, value), name, value) == SetParam(list, name, value)
  {
    var r := SetParam(list, name, value);
    SetParamSpec(list, name, value);
    var i := First(r, name).value;
    assert r[i] == Param(name, value);
    Around(r, i);
    var tail := r[i + 1..];
    DeletedAbsent(tail, name) by {
      forall j | 0 <= j < |tail| ensures tail[j].name != name {
        assert tail[j] == r[i + 1 + j];
      }
    }
  }

  // ---------------------------------------------------------------------
  // Serialisation and the target URL
  // ---------------------------------------------------------------------

  /**
   * `toString()`: the pairs as `name=value`, joined by `&`, each name and
   * value passed through the form encoder `encode`.
   */
  function Serialize(list: seq<Param>, encode: string -> string): (qs: string)
    ensures qs == "" <==> list == []
  {
    if list == [] then ""
    else
      var head := encode(list[0].name) + "=" + encode(list[0].value);
      assert head[|encode(list[0].name)|] == '=';
      if |list| == 1 then head else head + "&" + Serialize(list[1..], encode)
  }

  /** The address handed to `router.replace`: the bare path for an empty query. */
  function TargetUrl(pathname: string, qs: string): (url: string)
    ensures qs == "" ==> url == pathname
    ensures qs != "" ==> |url| > |pathname| && url[..|pathname|] == pathname && url[|pathname|] == '?' && url[|pathname| + 1..] == qs
  {
    if qs != "" then pathname + "?" + qs else pathname
  }

  /** The query after opening (`set login=1`) or closing (`delete login`, `delete error`). */
  function Synced(query: seq<Param>, open: bool): seq<Param> {
    if open then SetParam(query, LoginParam, "1")
    else Deleted(Deleted(query, LoginParam), ErrorParam)
  }

  /**
   * Opening leaves exactly one `login` pair, with value `1`, and keeps every
   * other pair in order; opening again changes nothing.
   */
  lemma OpenSpec(query: seq<Param>)
    ensures var r := Synced(query, true);
      && Get(r, LoginParam) == Some("1") && AtMostOne(r, LoginParam)
      && Deleted(r, LoginParam) == Deleted(query, LoginParam)
      && Synced(r, true) == r
  {
    SetParamSpec(query, LoginParam, "1");
    SetParamIdempotent(query, LoginParam, "1");
  }

  /**
   * Closing leaves no `login` and no `error` pair and keeps every other
   * pair in order; closing again changes nothing.
   */
  lemma CloseSpec(query: seq<Param>)
    ensures var r := Synced(query, false);
      && Get(r, LoginParam).None? && Get(r, ErrorParam).None?
      && (forall p :: p in query && p.name != LoginParam && p.name != ErrorParam ==> p in r)
      && Synced(r, false) == r
  {
    var once := Deleted(query, LoginParam);
    var r := Deleted(once, ErrorParam);
    forall j | 0 <= j < |r| ensures r[j].name != LoginParam && r[j].name != ErrorParam {
      assert r[j] in r;
    }
    DeletedAbsent(r, LoginParam);
    DeletedAbsent(r, ErrorParam);
  }

  /** Opening always navigates to a URL with a query: it never yields the bare path. */
  lemma OpenKeepsQuery(query: seq<Param>, pathname: string, encode: string -> string)
    ensures TargetUrl(pathname, Serialize(Synced(query, true), encode)) != pathname
  {
    SetParamSpec(query, LoginParam, "1");
  }

  // ---------------------------------------------------------------------
  // The displayed error
  // ---------------------------------------------------------------------

  /** `errorFromUrl || initialError || null`. */
  function DisplayedError(fromUrl: Option<string>, initial: Option<string>): (r: Option<string>)
    ensures r.Some? ==> r.value != ""
    ensures r.Some? ==> r == fromUrl || r == initial
    ensures r.None? <==> !Truthy(fromUrl) && !Truthy(initial)
    ensures Truthy(fromUrl) ==> r == fromUrl
  {
    if Truthy(fromUrl) then fromUrl
    else if Truthy(initial) then initial
    else None
  }

  /** After closing, the URL no longer supplies an error: only the initial one can still show. */
  lemma CloseDropsUrlError(query: seq<Param>, initial: Option<string>)
    ensures DisplayedError(Get(Synced(query, false), ErrorParam), initial) == DisplayedError(None, initial)
  {
    CloseSpec(query);
  }

  // ---------------------------------------------------------------------
  // The component
  // ---------------------------------------------------------------------

  /** The copy of the query that `setLoginOpenAndSyncUrl` edits. */
  class SearchParams {
    var list: seq<Param>

    constructor(list: seq<Param>)
      ensures this.list == list
    {
      this.list := list;
    }

    method Set(name: string, value: string)
      modifies this
      ensures list == SetParam(old(list), name, value)
    {
      list := SetParam(list, name, value);
    }

    method Delete(name: string)
      modifies this
      ensures list == Deleted(old(list), name)
    {
      list := Deleted(list, name);
    }

    function ToString(encode: string -> string): string
      reads this
    {
      Serialize(list, encode)
    }
  }

  class HomeClient {
    var loginOpen: bool
    const pathname: string
    const searchParams: seq<Param>

    constructor(initialLoginOpen: bool, pathname: string, searchParams: seq<Param>)
      ensures loginOpen == initialLoginOpen
      ensures this.pathname == pathname && this.searchParams == searchParams
    {
      loginOpen := initialLoginOpen;
      this.pathname := pathname;
      this.searchParams := searchParams;
    }

    /** The error shown in the dialog. */
    function Error(initialError: Option<string>): Option<string>
      reads this
    {
      DisplayedError(Get(searchParams, ErrorParam), initialError)
    }

    /**
     * `setLoginOpenAndSyncUrl(open)`: records the dialog state and returns
     * the URL the router is sent to.
     */
    method SetLoginOpenAndSyncUrl(open: bool, encode: string -> string) returns (url: string)
      modifies this
      ensures loginOpen == open
      ensures url == TargetUrl(pathname, Serialize(Synced(searchParams, open), encode))
    {
      loginOpen := open;
      var next := new SearchParams(searchParams);
      if open {
        next.Set(LoginParam, "1");
      } else {
        next.Delete(LoginParam);
        next.Delete(ErrorParam);
      }
      var qs := next.ToString(encode);
      url := if qs != "" then pathname + "?" + qs else pathname;
    }
  }
}
