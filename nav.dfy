/** The sidebar's active-route test: a link is highlighted when the current path is
    its url, or, for urls of two or more segments, a path below it. */
module NavMain {
  import opened Base
  import opened Text

  function NonEmpty(): string -> bool {
    s => s != ""
  }

  /** `url.split("/").filter(Boolean).length` (line 46). */
  function SegmentCount(url: string): (n: nat)
    ensures n <= |Split(url, '/')|
    ensures url == "" ==> n == 0
  {
    CountWhere(Split(url, '/'), NonEmpty())
  }

  /** `isActivePath(url)` (lines 45-52); `pathname` is `None` when the router has none. */
  predicate IsActivePath(pathname: Option<string>, url: string): (b: bool)
    ensures pathname == Some(url) ==> b
    ensures b ==> pathname.Some? && StartsWith(pathname.value, url)
  {
    if SegmentCount(url) <= 1 then pathname == Some(url)
    else pathname == Some(url) || (pathname.Some? && StartsWith(pathname.value, url + "/"))
  }

  /** `item.items?.some((s) => isActivePath(s.url))` (line 53); an item without
      sub-items (`undefined`) is not active. */
  predicate SubActive(pathname: Option<string>, subUrls: Option<seq<string>>): (b: bool)
    ensures b ==> subUrls.Some? && |subUrls.value| > 0
    ensures subUrls.Some? && pathname.Some? && pathname.value in subUrls.value ==> b
  {
    subUrls.Some? && exists i :: 0 <= i < |subUrls.value| && IsActivePath(pathname, subUrls.value[i])
  }

  // ------------------------------------------------------------------ properties

  /** Segments are the non-empty pieces: joining pieces with `/` and counting again
      gives the number of non-empty pieces. */
  lemma SegmentsOfJoin(parts: seq<string>)
    requires |parts| >= 1
    requires forall i :: 0 <= i < |parts| ==> '/' !in parts[i]
    ensures SegmentCount(Join(parts, '/')) == CountWhere(parts, NonEmpty())
  {
    SplitJoin(parts, '/');
  }

  /** `"/" + name` with no further `/` has one segment. */
  lemma OneSegment(name: string)
    requires name != "" && '/' !in name
    ensures SegmentCount("/" + name) == 1
  {
    SplitPieceThen([], '/', name);
    assert [] + ['/'] + name == "/" + name;
    SplitPiece(name, '/');
    var parts := Split("/" + name, '/');
    assert parts == [[], name];
    assert parts[..1] == [[]];
    var one: seq<string> := [[]];
    assert one[..0] == [];
    assert CountWhere(one, NonEmpty()) == 0;
    assert NonEmpty()(name);
  }

  /** A one-segment url such as `/dashboard` is active only on the exact path, never on
      the paths below it. */
  lemma TopLevelExactOnly(name: string, pathname: string)
    requires name != "" && '/' !in name
    ensures IsActivePath(Some(pathname), "/" + name) <==> pathname == "/" + name
  {
    OneSegment(name);
  }

  /** For a url of two or more segments, every path below it is active ... */
  lemma NestedCoversChildren(url: string, rest: string)
    requires SegmentCount(url) > 1
    ensures IsActivePath(Some(url + "/" + rest), url)
  {
    var p := url + "/" + rest;
    assert p[..|url + "/"|] == url + "/";
  }

  /** ... but a sibling that merely extends the last segment is not. */
  lemma NestedExcludesSiblings(url: string, c: char, rest: string)
    requires SegmentCount(url) > 1 && c != '/'
    ensures !IsActivePath(Some(url + [c] + rest), url)
  {
    var p := url + [c] + rest;
    assert p != url by {
      assert |p| > |url|;
    }
    assert p[..|url| + 1] != url + "/" by {
      assert p[..|url| + 1][|url|] == c;
      assert (url + "/")[|url|] == '/';
    }
  }

  /** A group is active exactly when one of its sub-items is: adding a sub-item adds
      its own test; an empty list is never active. */
  lemma SubActiveSnoc(pathname: Option<string>, subs: seq<string>, url: string)
    ensures !SubActive(pathname, Some([]))
    ensures SubActive(pathname, Some(subs + [url])) <==> SubActive(pathname, Some(subs)) || IsActivePath(pathname, url)
  {
    var all := subs + [url];
    if SubActive(pathname, Some(all)) && !IsActivePath(pathname, url) {
      var i :| 0 <= i < |all| && IsActivePath(pathname, all[i]);
      assert i < |subs| && all[i] == subs[i];
    }
    if SubActive(pathname, Some(subs)) {
      var i :| 0 <= i < |subs| && IsActivePath(pathname, subs[i]);
      assert all[i] == subs[i];
    }
    if IsActivePath(pathname, url) {
      assert all[|subs|] == url;
    }
  }

  /** The case the comment of line 48 is about: `/dashboard` is not active on
      `/dashboard/volunteers`. */
  lemma DashboardIsExact()
    ensures !IsActivePath(Some("/dashboard/volunteers"), "/dashboard")
  {
    DashboardHasOneSegment();
  }

  lemma DashboardHasOneSegment()
    ensures SegmentCount("/dashboard") == 1
  {
    var name := "dashboard";
    assert '/' !in name by {
      assert forall i :: 0 <= i < |name| ==> name[i] != '/';
    }
    OneSegment(name);
  }

  /** `"/" + a + "/" + b` with two non-empty names has two segments. */
  lemma TwoSegments(a: string, b: string)
    requires a != "" && b != "" && '/' !in a && '/' !in b
    ensures SegmentCount("/" + a + "/" + b) == 2
  {
    var url := "/" + a + "/" + b;
    assert url == [] + ['/'] + (a + ['/'] + b);
    SplitPieceThen([], '/', a + ['/'] + b);
    SplitPieceThen(a, '/', b);
    SplitPiece(b, '/');
    var parts: seq<string> := [[], a, b];
    assert Split(url, '/') == parts;
    var two, one, none: seq<string> := [[], a], [[]], [];
    assert parts[..2] == two && two[..1] == one && one[..0] == none;
    assert CountWhere(one, NonEmpty()) == 0;
    assert CountWhere(two, NonEmpty()) == 1 by {
      assert NonEmpty()(a);
    }
    assert NonEmpty()(b);
  }

  lemma HorariosHasTwoSegments()
    ensures SegmentCount("/dashboard/horarios") == 2
  {
    var a, b := "dashboard", "horarios";
    assert '/' !in a by {
      assert forall i :: 0 <= i < |a| ==> a[i] != '/';
    }
    assert '/' !in b by {
      assert forall i :: 0 <= i < |b| ==> b[i] != '/';
    }
    TwoSegments(a, b);
    assert "/" + a + "/" + b == "/dashboard/horarios";
  }

  /** `/dashboard/horarios` is not active on a sibling such as `/dashboard/horariosX` ... */
  lemma HorariosSiblingInactive()
    ensures !IsActivePath(Some("/dashboard/horariosX"), "/dashboard/horarios")
  {
    HorariosHasTwoSegments();
    NestedExcludesSiblings("/dashboard/horarios", 'X', "");
    assert "/dashboard/horarios" + ['X'] + "" == "/dashboard/horariosX";
  }

  /** ... but is active on every path below it. */
  lemma HorariosChildActive(rest: string)
    ensures IsActivePath(Some("/dashboard/horarios/" + rest), "/dashboard/horarios")
  {
    HorariosHasTwoSegments();
    NestedCoversChildren("/dashboard/horarios", rest);
    assert "/dashboard/horarios" + "/" == "/dashboard/horarios/";
    assert "/dashboard/horarios" + "/" + rest == "/dashboard/horarios/" + rest;
  }
}
