/**
 * The pagination bar of the admin list pages: the query string each link
 * carries, the "Showing from to to of total" range, the previous/next links
 * and the strip of at most seven page-number slots with ellipses.
 */
module Pagination {
  import opened Wrappers
  import opened Text

  // ===========================================================================
  // Query parameters and URLSearchParams

  /** A value in the `queryParams` record: `string | number | undefined`, or `null`. */
  datatype ParamValue = Undefined | Null | Str(s: string) | Num(n: int)

  /** A filter survives unless it is `undefined`, `""` or `null`. */
  predicate Kept(v: ParamValue) {
    !(v.Undefined? || v.Null? || v == Str(""))
  }

  /** `String(value)` for a kept value. */
  function ValueString(v: ParamValue): string
    requires Kept(v)
  {
    match v
    case Str(s) => s
    case Num(n) => IntToString(n)
  }

  type Pair = (string, string)

  /** The pairs of `list` whose name is `name`, in order. */
  function Named(list: seq<Pair>, name: string): (r: seq<Pair>)
    ensures |r| <= |list|
    ensures forall p :: p in r ==> p in list && p.0 == name
  {
    if list == [] then []
    else if list[0].0 == name then [list[0]] + Named(list[1..], name)
    else Named(list[1..], name)
  }

  /** `list` without any pair named `name`. */
  function Without(list: seq<Pair>, name: string): (r: seq<Pair>)
    ensures Named(r, name) == []
    ensures forall n :: n != name ==> Named(r, n) == Named(list, n)
  {
    if list == [] then []
    else if list[0].0 == name then Without(list[1..], name)
    else [list[0]] + Without(list[1..], name)
  }

  /** Overwrites the first pair named `name` and drops the later ones. */
  function ReplaceFirst(list: seq<Pair>, name: string, value: string): (r: seq<Pair>)
    requires Named(list, name) != []
    ensures Named(r, name) == [(name, value)]
    ensures forall n :: n != name ==> Named(r, n) == Named(list, n)
  {
    if list[0].0 == name then [(name, value)] + Without(list[1..], name)
    else [list[0]] + ReplaceFirst(list[1..], name, value)
  }

  /** `URLSearchParams.set(name, value)`, as the URL Standard defines it: if a
      pair with that name exists, the first one takes the value and the others
      are removed; otherwise the pair is appended. Afterwards exactly one pair
      has that name, and every other name keeps exactly the pairs it had. */
  function SetPair(list: seq<Pair>, name: string, value: string): (r: seq<Pair>)
    ensures Named(r, name) == [(name, value)]
    ensures forall n :: n != name ==> Named(r, n) == Named(list, n)
  {
    if Named(list, name) != [] then ReplaceFirst(list, name, value)
    else
      NamedAppend(list, [(name, value)]);
      list + [(name, value)]
  }

  lemma {:induction false} NamedAppend(a: seq<Pair>, b: seq<Pair>)
    ensures forall n :: Named(a + b, n) == Named(a, n) + Named(b, n)
  {
    if a != [] {
      NamedAppend(a[1..], b);
      assert (a + b)[1..] == a[1..] + b;
    } else {
      assert a + b == b;
    }
  }

  /** A `URLSearchParams` object: its list of name-value pairs. */
  class SearchParams {
    var list: seq<Pair>

    constructor ()
      ensures list == []
    {
      list := [];
    }

    method Set(name: string, value: string)
      modifies this
      ensures list == SetPair(old(list), name, value)
    {
      list := SetPair(list, name, value);
    }

    /** `params.toString()`. */
    function ToString(): string
      reads this
    {
      Serialize(list)
    }
  }

  // ---------------------------------------------------------------------------
  // The application/x-www-form-urlencoded serializer of the URL Standard

  /** The UTF-8 bytes of one character. */
  function Utf8(c: char): (bytes: seq<nat>)
    ensures 1 <= |bytes| <= 4
    ensures forall i :: 0 <= i < |bytes| ==> bytes[i] < 256
    ensures c as int < 0x80 <==> bytes == [c as int]
  {
    var n := c as int;
    if n < 0x80 then [n]
    else if n < 0x800 then [0xC0 + n / 0x40, 0x80 + n % 0x40]
    else if n < 0x1_0000 then [0xE0 + n / 0x1000, 0x80 + (n / 0x40) % 0x40, 0x80 + n % 0x40]
    else [0xF0 + n / 0x4_0000, 0x80 + (n / 0x1000) % 0x40, 0x80 + (n / 0x40) % 0x40, 0x80 + n % 0x40]
  }

  /** Bytes left as they are: ASCII letters and digits and `*-._`. */
  predicate Unescaped(b: nat) {
    b == 0x2A || b == 0x2D || b == 0x2E || b == 0x5F
    || 0x30 <= b <= 0x39 || 0x41 <= b <= 0x5A || 0x61 <= b <= 0x7A
  }

  function HexDigit(d: nat): char
    requires d < 16
  {
    "0123456789ABCDEF"[d]
  }

  function EncodeByte(b: nat): string
    requires b < 256
  {
    if b == 0x20 then "+"
    else if Unescaped(b) then [b as char]
    else ['%', HexDigit(b / 16), HexDigit(b % 16)]
  }

  function EncodeBytes(bytes: seq<nat>): string
    requires forall i :: 0 <= i < |bytes| ==> bytes[i] < 256
  {
    if bytes == [] then "" else EncodeByte(bytes[0]) + EncodeBytes(bytes[1..])
  }

  /** Percent-encodes a name or a value. */
  function Encode(s: string): string {
    if s == [] then "" else EncodeBytes(Utf8(s[0])) + Encode(s[1..])
  }

  function PairString(p: Pair): (r: string)
    ensures '=' in r
  {
    var r := Encode(p.0) + "=" + Encode(p.1);
    assert r[|Encode(p.0)|] == '=';
    r
  }

  /** The pairs joined with `&`: empty exactly when there are no pairs. */
  function Serialize(list: seq<Pair>): (r: string)
    ensures r == "" <==> list == []
  {
    if list == [] then ""
    else if |list| == 1 then PairString(list[0])
    else PairString(list[0]) + "&" + Serialize(list[1..])
  }

  predicate PlainChar(c: char) {
    IsDigit(c) || 'a' <= c <= 'z' || 'A' <= c <= 'Z' || c == '-'
  }

  /** Letters, digits and `-` come through the encoding unchanged. */
  lemma {:induction false} EncodePlain(s: string)
    requires forall i :: 0 <= i < |s| ==> PlainChar(s[i])
    ensures Encode(s) == s
  {
    if s != [] {
      EncodePlain(s[1..]);
      assert Utf8(s[0]) == [s[0] as int];
      assert EncodeBytes(Utf8(s[0])) == [s[0]];
    }
  }

  // ---------------------------------------------------------------------------
  // buildQueryString

  /** What the `forEach` over `Object.entries(queryParams)` leaves in the params. */
  function Collected(entries: seq<(string, ParamValue)>): seq<Pair> {
    if entries == [] then []
    else
      var before := Collected(entries[..|entries| - 1]);
      var (key, value) := entries[|entries| - 1];
      if Kept(value) then SetPair(before, key, ValueString(value)) else before
  }

  /** The value the last kept entry named `name` carries, if any. */
  function LastKept(entries: seq<(string, ParamValue)>, name: string): Option<string> {
    if entries == [] then None
    else
      var (key, value) := entries[|entries| - 1];
      if key == name && Kept(value) then Some(ValueString(value))
      else LastKept(entries[..|entries| - 1], name)
  }

  /** A filter appears in the query exactly when some entry gives it a value
      other than `undefined`, `""` or `null`, and then exactly once, with the
      last such value. */
  lemma {:induction false} CollectedNamed(entries: seq<(string, ParamValue)>, name: string)
    ensures Named(Collected(entries), name) ==
            if LastKept(entries, name).Some? then [(name, LastKept(entries, name).value)] else []
  {
    if entries != [] {
      CollectedNamed(entries[..|entries| - 1], name);
    }
  }

  /** The params after the final `params.set("page", String(page))`. */
  function QueryPairs(page: int, queryParams: Option<seq<(string, ParamValue)>>): (r: seq<Pair>)
    ensures Named(r, "page") == [("page", IntToString(page))]
    ensures r != []
  {
    var r := SetPair(Collected(queryParams.GetOr([])), "page", IntToString(page));
    assert ("page", IntToString(page)) in Named(r, "page");
    r
  }

  /** The URL a pagination link points to. */
  function QueryUrl(page: int, basePath: string, queryParams: Option<seq<(string, ParamValue)>>): string {
    basePath + "?" + Serialize(QueryPairs(page, queryParams))
  }

  /** `buildQueryString(page, basePath, queryParams)`. The fallback branch
      `basePath?page=…` is never taken: the params always hold `page`. */
  method BuildQueryString(page: int, basePath: string, queryParams: Option<seq<(string, ParamValue)>>)
    returns (url: string)
    ensures url == basePath + "?" + Serialize(QueryPairs(page, queryParams))
  {
    var params := new SearchParams();
    if queryParams.Some? {
      var entries := queryParams.value;
      for i := 0 to |entries|
        invariant params.list == Collected(entries[..i])
      {
        var (key, value) := entries[i];
        assert entries[..i + 1][..i] == entries[..i];
        if Kept(value) {
          params.Set(key, ValueString(value));
        }
      }
      assert entries[..|entries|] == entries;
    }
    params.Set("page", IntToString(page));
    var qs := params.ToString();
    url := if qs != "" then basePath + "?" + qs else basePath + "?page=" + IntToString(page);
  }

  /** The query of a link holds `page` once, with the requested page number,
      whatever `queryParams` held; every other name appears exactly when a
      kept filter carries it. */
  lemma QueryParamsOfLink(page: int, queryParams: Option<seq<(string, ParamValue)>>, name: string)
    ensures Named(QueryPairs(page, queryParams), "page") == [("page", IntToString(page))]
    ensures name != "page" ==>
      Named(QueryPairs(page, queryParams), name) ==
        var v := LastKept(queryParams.GetOr([]), name);
        if v.Some? then [(name, v.value)] else []
  {
    CollectedNamed(queryParams.GetOr([]), name);
  }

  /** The `page` pair is written as `page=` followed by the page number. */
  lemma PagePairString(page: int)
    ensures PairString(("page", IntToString(page))) == "page=" + IntToString(page)
  {
    var s := IntToString(page);
    var name := "page";
    EncodedName(name);
    NumeralPlain(page);
    EncodePlain(s);
  }

  /** The name `page` is written as it is. */
  lemma EncodedName(name: string)
    requires name == "page"
    ensures Encode(name) == name
  {
    assert forall i :: 0 <= i < |name| ==> PlainChar(name[i]);
    EncodePlain(name);
  }

  /** A page number is written with digits and perhaps a minus sign. */
  lemma NumeralPlain(page: int)
    ensures forall i :: 0 <= i < |IntToString(page)| ==> PlainChar(IntToString(page)[i])
  {
    var s := IntToString(page);
    forall i | 0 <= i < |s| ensures PlainChar(s[i]) {
      if page >= 0 {
        assert AllDigits(s);
      } else {
        assert s == "-" + NatToString(-page);
        if i > 0 {
          assert s[i] == NatToString(-page)[i - 1];
        }
      }
    }
  }

  // ===========================================================================
  // The Pagination component

  /** The `meta` prop. */
  datatype Meta = Meta(currentPage: int, perPage: int, total: int,
                       totalPages: Option<int>, lastPage: Option<int>)

  /** `meta.total_pages ?? meta.last_page ?? 1`. */
  function LastPage(meta: Meta): int {
    meta.totalPages.GetOr(meta.lastPage.GetOr(1))
  }

  /** The first result shown. */
  function From(currentPage: int, perPage: int): int {
    (currentPage - 1) * perPage + 1
  }

  /** The last result shown. */
  function To(currentPage: int, perPage: int, total: int): int {
    if currentPage * perPage < total then currentPage * perPage else total
  }

  /** The range never runs past the total, and it is non-empty exactly when
      the requested page starts inside the results. */
  lemma RangeBounds(currentPage: int, perPage: int, total: int)
    requires currentPage >= 1 && total > 0
    ensures To(currentPage, perPage, total) <= total
    ensures From(currentPage, perPage) <= To(currentPage, perPage, total)
            <==> perPage >= 1 && (currentPage - 1) * perPage < total
  {
    assert (currentPage - 1) * perPage == currentPage * perPage - perPage;
  }

  /** A slot of the page-number strip. */
  datatype Slot = Page(n: int) | Ellipsis

  /** The slots `Page(lo), …, Page(hi)`. */
  function Pages(lo: int, hi: int): (r: seq<Slot>)
    ensures |r| == if lo <= hi then hi - lo + 1 else 0
    ensures forall i :: 0 <= i < |r| ==> r[i] == Page(lo + i)
    decreases hi - lo
  {
    if lo > hi then [] else Pages(lo, hi - 1) + [Page(hi)]
  }

  function Max(a: int, b: int): int { if a < b then b else a }
  function Min(a: int, b: int): int { if a < b then a else b }

  /** The page-number strip: every page when there are at most seven, and
      otherwise the first page, the pages next to the current one, the last
      page, and an ellipsis wherever pages are skipped. */
  function Strip(currentPage: int, lastPage: int): seq<Slot> {
    if lastPage <= 7 then Pages(1, lastPage)
    else
      [Page(1)]
      + (if currentPage > 3 then [Ellipsis] else [])
      + Pages(Max(2, currentPage - 1), Min(lastPage - 1, currentPage + 1))
      + (if currentPage < lastPage - 2 then [Ellipsis] else [])
      + [Page(lastPage)]
  }

  /** The loop that fills `pageNumbers`; the `includes` guard never fires. */
  method PageNumbers(currentPage: int, lastPage: int) returns (strip: seq<Slot>)
    ensures strip == Strip(currentPage, lastPage)
  {
    strip := [];
    if lastPage <= 7 {
      var i := 1;
      while i <= lastPage
        invariant 1 <= i <= Max(lastPage + 1, 1)
        invariant strip == Pages(1, i - 1)
      {
        strip := strip + [Page(i)];
        i := i + 1;
      }
    } else {
      strip := [Page(1)];
      if currentPage > 3 {
        strip := strip + [Ellipsis];
      }
      ghost var head := strip;
      var start := Max(2, currentPage - 1);
      var end := Min(lastPage - 1, currentPage + 1);
      var i := start;
      while i <= end
        invariant start <= i <= Max(end + 1, start)
        invariant strip == head + Pages(start, i - 1)
      {
        if Page(i) !in strip {
          strip := strip + [Page(i)];
        } else {
          assert false;
        }
        i := i + 1;
      }
      if currentPage < lastPage - 2 {
        strip := strip + [Ellipsis];
      }
      if lastPage > 1 {
        strip := strip + [Page(lastPage)];
      }
    }
  }

  /** A page number shown in the strip. */
  predicate Shows(strip: seq<Slot>, p: int) {
    Page(p) in strip
  }

  /** With at most seven pages the strip is exactly 1..lastPage. */
  lemma ShortStrip(currentPage: int, lastPage: int)
    requires 1 <= lastPage <= 7
    ensures |Strip(currentPage, lastPage)| == lastPage
    ensures forall i :: 0 <= i < lastPage ==> Strip(currentPage, lastPage)[i] == Page(i + 1)
  {
  }

  /** With more than seven pages the strip starts with 1, ends with lastPage,
      has at most seven slots, and shows exactly the first page, the last page
      and the existing pages next to the current one. */
  lemma LongStrip(currentPage: int, lastPage: int)
    requires lastPage > 7
    ensures var s := Strip(currentPage, lastPage);
      && 3 <= |s| <= 7
      && s[0] == Page(1) && s[|s| - 1] == Page(lastPage)
      && (forall p :: Shows(s, p) <==>
            p == 1 || p == lastPage || (currentPage - 1 <= p <= currentPage + 1 && 1 <= p <= lastPage))
  {
    var s := Strip(currentPage, lastPage);
    var start, end := Max(2, currentPage - 1), Min(lastPage - 1, currentPage + 1);
    var e1: seq<Slot> := if currentPage > 3 then [Ellipsis] else [];
    var e2: seq<Slot> := if currentPage < lastPage - 2 then [Ellipsis] else [];
    var mid := Pages(start, end);
    assert s == [Page(1)] + e1 + mid + e2 + [Page(lastPage)];
    assert |mid| <= 3;
    forall p ensures Shows(s, p) <==>
        p == 1 || p == lastPage || (currentPage - 1 <= p <= currentPage + 1 && 1 <= p <= lastPage)
    {
      if start <= p <= end {
        assert mid[p - start] == Page(p);
      }
      if Page(p) in mid {
        var k :| 0 <= k < |mid| && mid[k] == Page(p);
      }
    }
  }

  /** The page numbers in the strip strictly increase from left to right. */
  lemma StripIncreasing(currentPage: int, lastPage: int)
    ensures var s := Strip(currentPage, lastPage);
      forall i, j :: 0 <= i < j < |s| && s[i].Page? && s[j].Page? ==> s[i].n < s[j].n
  {
    var s := Strip(currentPage, lastPage);
    if lastPage > 7 {
      var start, end := Max(2, currentPage - 1), Min(lastPage - 1, currentPage + 1);
      var e1: seq<Slot> := if currentPage > 3 then [Ellipsis] else [];
      var e2: seq<Slot> := if currentPage < lastPage - 2 then [Ellipsis] else [];
      var mid := Pages(start, end);
      assert s == [Page(1)] + e1 + mid + e2 + [Page(lastPage)];
      var a := 1 + |e1|;
      var b := a + |mid|;
      forall i | 0 <= i < |s| && s[i].Page?
        ensures (i == 0 && s[i].n == 1) || (a <= i < b && s[i].n == start + (i - a))
             || (i == |s| - 1 && s[i].n == lastPage)
      {
        if a <= i < b { assert s[i] == mid[i - a]; }
      }
    }
  }

  /** The current page is always in the strip when it is a real page. */
  lemma StripHasCurrent(currentPage: int, lastPage: int)
    requires 1 <= currentPage <= lastPage
    ensures Shows(Strip(currentPage, lastPage), currentPage)
  {
    if lastPage <= 7 {
      assert Strip(currentPage, lastPage)[currentPage - 1] == Page(currentPage);
    } else {
      LongStrip(currentPage, lastPage);
    }
  }

  /** With more than seven pages, an ellipsis follows page 1 exactly when the
      current page is past 3, and one precedes the last page exactly when the
      current page is before lastPage - 2. */
  lemma StripEllipses(currentPage: int, lastPage: int)
    requires 1 <= currentPage <= lastPage && lastPage > 7
    ensures var s := Strip(currentPage, lastPage);
      && (s[1] == Ellipsis <==> currentPage > 3)
      && (s[|s| - 2] == Ellipsis <==> currentPage < lastPage - 2)
  {
    var s := Strip(currentPage, lastPage);
    var start, end := Max(2, currentPage - 1), Min(lastPage - 1, currentPage + 1);
    var e1: seq<Slot> := if currentPage > 3 then [Ellipsis] else [];
    var e2: seq<Slot> := if currentPage < lastPage - 2 then [Ellipsis] else [];
    var mid := Pages(start, end);
    assert s == [Page(1)] + e1 + mid + e2 + [Page(lastPage)];
    assert start <= end;
    if e1 == [] { assert s[1] == mid[0]; }
    if e2 == [] { assert s[|s| - 2] == mid[|mid| - 1]; }
  }

  /** What the component renders when it renders anything. */
  datatype View = View(from: int, to: int, prevHref: Option<string>, nextHref: Option<string>,
                       pages: seq<Slot>)

  /** The `Pagination` component: nothing without results or with a single
      page; otherwise the range, a previous link exactly when there is a page
      before, a next link exactly when there is a page after, and the strip. */
  method Render(meta: Meta, basePath: string, queryParams: Option<seq<(string, ParamValue)>>)
    returns (view: Option<View>)
    ensures view.None? <==> meta.total <= 0 || LastPage(meta) <= 1
    ensures view.Some? ==>
      && view.value.from == From(meta.currentPage, meta.perPage)
      && view.value.to == To(meta.currentPage, meta.perPage, meta.total)
      && (view.value.prevHref.Some? <==> meta.currentPage > 1)
      && (view.value.prevHref.Some? ==>
            view.value.prevHref.value == QueryUrl(meta.currentPage - 1, basePath, queryParams))
      && (view.value.nextHref.Some? <==> meta.currentPage < LastPage(meta))
      && (view.value.nextHref.Some? ==>
            view.value.nextHref.value == QueryUrl(meta.currentPage + 1, basePath, queryParams))
      && view.value.pages == Strip(meta.currentPage, LastPage(meta))
  {
    var currentPage := meta.currentPage;
    var lastPage := LastPage(meta);
    var total := meta.total;
    var perPage := meta.perPage;
    if total <= 0 || lastPage <= 1 {
      return None;
    }
    var from := (currentPage - 1) * perPage + 1;
    var to := if currentPage * perPage < total then currentPage * perPage else total;
    var prevHref: Option<string> := None;
    if currentPage > 1 {
      var href := BuildQueryString(currentPage - 1, basePath, queryParams);
      prevHref := Some(href);
    }
    var nextHref: Option<string> := None;
    if currentPage < lastPage {
      var href := BuildQueryString(currentPage + 1, basePath, queryParams);
      nextHref := Some(href);
    }
    var pageNumbers := PageNumbers(currentPage, lastPage);
    view := Some(View(from, to, prevHref, nextHref, pageNumbers));
  }
}
