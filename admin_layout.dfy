/**
 * The admin layout's navigation helpers: which sidebar entry is active for
 * the current path, the page title taken from it, the user's initials shown
 * in the avatar, and the header's display-name defaults.
 */
module AdminLayout {
  import opened Wrappers
  import opened Text

  /** A sidebar entry (its icon is presentation only). */
  datatype NavItem = NavItem(name: string, href: string)

  /** The sidebar, in display order. */
  const NavItems: seq<NavItem> := [
    NavItem("Dashboard", "/dashboard"),
    NavItem("Appointments", "/appointments"),
    NavItem("Calendar", "/calendar"),
    NavItem("Services", "/services"),
    NavItem("Staff", "/staff"),
    NavItem("Customers", "/customers"),
    NavItem("Settings", "/settings")
  ]

  /** `s.startsWith(prefix)`. */
  predicate StartsWith(s: string, prefix: string) {
    |prefix| <= |s| && s[..|prefix|] == prefix
  }

  /** An entry is active on its own path and on every path below it. */
  predicate IsActive(path: string, href: string) {
    path == href || StartsWith(path, href + "/")
  }

  /** `navItems.find(...)`: the first entry active for the path. */
  function FindActive(items: seq<NavItem>, path: string): (r: Option<nat>)
    ensures r.Some? ==> r.value < |items| && IsActive(path, items[r.value].href)
    ensures r.Some? ==> forall j :: 0 <= j < r.value ==> !IsActive(path, items[j].href)
    ensures r.None? <==> forall j :: 0 <= j < |items| ==> !IsActive(path, items[j].href)
  {
    if items == [] then None
    else if IsActive(path, items[0].href) then Some(0)
    else
      match FindActive(items[1..], path)
      case None => None
      case Some(i) => Some(i + 1)
  }

  /** `getPageTitle()`: `currentItem?.name || "Dashboard"`. */
  function PageTitle(path: string): string {
    match FindActive(NavItems, path)
    case Some(i) => if NavItems[i].name != "" then NavItems[i].name else "Dashboard"
    case None => "Dashboard"
  }

  /** Two entries active for the same path are the same entry or one lies
      below the other. */
  lemma ActiveNested(path: string, h1: string, h2: string)
    ensures IsActive(path, h1) && IsActive(path, h2) ==>
      h1 == h2 || StartsWith(h1, h2 + "/") || StartsWith(h2, h1 + "/")
  {
    if IsActive(path, h1) && IsActive(path, h2) && path != h1 && path != h2 {
      if |h1| < |h2| {
        assert (h2 + "/")[..|h1| + 1] == path[..|h1| + 1] == h1 + "/";
        assert h2[..|h1| + 1] == (h2 + "/")[..|h1| + 1];
      } else if |h2| < |h1| {
        assert (h1 + "/")[..|h2| + 1] == path[..|h2| + 1] == h2 + "/";
        assert h1[..|h2| + 1] == (h1 + "/")[..|h2| + 1];
      } else {
        assert h1 == (h1 + "/")[..|h1|] == path[..|h1|] == (h2 + "/")[..|h2|] == h2;
      }
    }
  }

  /** A path of one segment: a slash and no further slash. */
  predicate OneSegment(href: string) {
    |href| > 0 && href[0] == '/' && forall k :: 1 <= k < |href| ==> href[k] != '/'
  }

  /** No one-segment path lies below another. */
  lemma OneSegmentNotNested(h1: string, h2: string)
    requires OneSegment(h1) && OneSegment(h2)
    ensures !StartsWith(h1, h2 + "/")
  {
    if |h2| + 1 <= |h1| {
      assert h1[|h2|] != '/';
      assert (h2 + "/")[|h2|] == '/';
      assert h1[..|h2| + 1][|h2|] == h1[|h2|];
    }
  }

  /** Every sidebar entry is a distinct one-segment path. */
  lemma NavHrefs()
    ensures forall i :: 0 <= i < |NavItems| ==> OneSegment(NavItems[i].href)
    ensures forall i, j :: 0 <= i < j < |NavItems| ==> NavItems[i].href != NavItems[j].href
  {
    forall i | 0 <= i < |NavItems| ensures OneSegment(NavItems[i].href) {
      var h := NavItems[i].href;
      assert forall k :: 1 <= k < |h| ==> 'a' <= h[k] <= 'z';
    }
    forall i, j | 0 <= i < j < |NavItems| ensures NavItems[i].href != NavItems[j].href {
      assert i in {0, 1, 2, 3, 4, 5} && j in {1, 2, 3, 4, 5, 6};
    }
  }

  /** At most one sidebar entry is highlighted for any path. */
  lemma AtMostOneActive(path: string, i: nat, j: nat)
    requires i < j < |NavItems|
    ensures !(IsActive(path, NavItems[i].href) && IsActive(path, NavItems[j].href))
  {
    NavHrefs();
    ActiveNested(path, NavItems[i].href, NavItems[j].href);
    OneSegmentNotNested(NavItems[i].href, NavItems[j].href);
    OneSegmentNotNested(NavItems[j].href, NavItems[i].href);
  }

  /** The title is the name of the highlighted entry, whichever it is, and
      "Dashboard" on a path no entry covers. */
  lemma PageTitleSpec(path: string)
    ensures (forall i :: 0 <= i < |NavItems| ==> !IsActive(path, NavItems[i].href)) ==> PageTitle(path) == "Dashboard"
    ensures forall i :: 0 <= i < |NavItems| && IsActive(path, NavItems[i].href) ==> PageTitle(path) == NavItems[i].name
  {
    forall i | 0 <= i < |NavItems| && IsActive(path, NavItems[i].href)
      ensures PageTitle(path) == NavItems[i].name
    {
      var k := FindActive(NavItems, path).value;
      if k < i {
        AtMostOneActive(path, k, i);
      }
    }
  }

  /** A path below an entry takes the entry's title; a path merely sharing a
      prefix with an entry, such as "/appointmentsX", highlights nothing. */
  lemma PageTitleExamples()
    ensures PageTitle("/appointments/7/edit") == "Appointments"
    ensures !IsActive("/appointmentsX", "/appointments") && PageTitle("/appointmentsX") == "Dashboard"
  {
    var sub := "/appointments/7/edit";
    assert StartsWith(sub, NavItems[1].href + "/");
    PageTitleSpec(sub);
    var near := "/appointmentsX";
    assert OneSegment(near) by {
      assert forall k :: 1 <= k < |near| ==> near[k] != '/';
    }
    NavHrefs();
    forall i | 0 <= i < |NavItems| ensures !IsActive(near, NavItems[i].href) {
      OneSegmentNotNested(near, NavItems[i].href);
      assert i in {0, 1, 2, 3, 4, 5, 6};
    }
    PageTitleSpec(near);
  }

  /** The layout matches on the whole page URL, query string included: on a
      page link the pagination builds, such as "/appointments?page=2", no
      entry is highlighted and the title falls back to "Dashboard". */
  lemma QueryStringUnmatched()
    ensures !IsActive("/appointments?page=2", "/appointments")
    ensures PageTitle("/appointments?page=2") == "Dashboard"
  {
    var url := "/appointments?page=2";
    assert OneSegment(url) by {
      assert forall k :: 1 <= k < |url| ==> url[k] != '/';
    }
    NavHrefs();
    forall i | 0 <= i < |NavItems| ensures !IsActive(url, NavItems[i].href) {
      OneSegmentNotNested(url, NavItems[i].href);
      assert i in {0, 1, 2, 3, 4, 5, 6};
    }
    PageTitleSpec(url);
  }

  // ---------------------------------------------------------------------------
  // The header

  /** `userName.split(" ").map(n => n[0]).join("").toUpperCase().slice(0, 2)`. */
  function UserInitials(userName: string): (r: string)
    ensures |r| <= 2
    ensures forall i :: 0 <= i < |r| ==> !IsLowerAscii(r[i])
  {
    Take(ToUpper(Initials(Split(userName, ' '))), 2)
  }

  /** The initials are those of the space-separated words, in order: the
      first character of every non-empty word, upper-cased, the first two
      kept. */
  lemma UserInitialsOfWords(words: seq<string>)
    requires words != [] && Spaceless(words)
    ensures UserInitials(Join(words, ' ')) == Take(ToUpper(Initials(words)), 2)
  {
    JoinSplit(words, ' ');
  }

  /** Words free of spaces. */
  predicate Spaceless(words: seq<string>) {
    forall i :: 0 <= i < |words| ==> ' ' !in words[i]
  }

  /** A trailing space adds an empty last word, which contributes nothing. */
  lemma UserInitialsTrailingSpace(words: seq<string>)
    requires words != [] && Spaceless(words)
    ensures UserInitials(Join(words, ' ') + " ") == UserInitials(Join(words, ' '))
  {
    var after := words + [""];
    assert Spaceless(after) by {
      forall i | 0 <= i < |after| ensures ' ' !in after[i] {
        if i < |words| {
          assert after[i] == words[i];
        }
      }
    }
    JoinTrailing(words, ' ');
    InitialsAppend(words, [""]);
    assert Initials(after) == Initials(words) + "";
    assert Initials(words) + "" == Initials(words);
    UserInitialsOfWords(words);
    UserInitialsOfWords(after);
  }

  /** A leading space adds an empty first word, which contributes nothing. */
  lemma UserInitialsLeadingSpace(words: seq<string>)
    requires words != [] && Spaceless(words)
    ensures UserInitials(" " + Join(words, ' ')) == UserInitials(Join(words, ' '))
  {
    var before := [""] + words;
    assert before[1..] == words;
    assert Spaceless(before) by {
      forall i | 0 <= i < |before| ensures ' ' !in before[i] {
        if i > 0 {
          assert before[i] == words[i - 1];
        }
      }
    }
    assert Join(before, ' ') == " " + Join(words, ' ');
    assert Initials(before) == Initials(words);
    UserInitialsOfWords(words);
    UserInitialsOfWords(before);
  }

  /** Joining one more empty part appends a separator. */
  lemma {:induction false} JoinTrailing(parts: seq<string>, sep: char)
    requires parts != []
    ensures Join(parts + [""], sep) == Join(parts, sep) + [sep]
  {
    var more := parts + [""];
    assert more[0] == parts[0];
    if |parts| == 1 {
      assert more[1..] == [""];
    } else {
      assert more[1..] == parts[1..] + [""];
      JoinTrailing(parts[1..], sep);
    }
  }

  /** A name without spaces gives its first character, upper-cased; the
      default user name "User" gives "U". */
  lemma UserInitialsOneWord(word: string)
    requires word != [] && ' ' !in word
    ensures UserInitials(word) == [UpperChar(word[0])]
    ensures UserInitials("User") == "U"
  {
    JoinSplit([word], ' ');
    JoinSplit(["User"], ' ');
  }

  /** The signed-in user as the page props carry it (each part may be absent). */
  datatype Auth = Auth(businessName: Option<string>, name: Option<string>, email: Option<string>)

  /** `value || fallback` on an optional text: missing and empty fall back. */
  function OrDefault(value: Option<string>, fallback: string): (r: string)
    ensures value.Some? && value.value != "" ==> r == value.value
    ensures r == fallback || value == Some(r)
    ensures r == "" <==> fallback == "" && (value.None? || value.value == "")
  {
    if value.Some? && value.value != "" then value.value else fallback
  }

  /** What the header shows. */
  datatype Header = Header(
    businessName: string, userName: string, userEmail: string, userInitials: string, pageTitle: string)

  /** The layout's header for the signed-in user and the current path. */
  function LayoutHeader(auth: Auth, path: string): (h: Header)
    ensures h.businessName != "" && h.userName != "" && h.userEmail != ""
    ensures auth.businessName.Some? && auth.businessName.value != "" ==> h.businessName == auth.businessName.value
    ensures auth.name.Some? && auth.name.value != "" ==> h.userName == auth.name.value
    ensures auth.email.Some? && auth.email.value != "" ==> h.userEmail == auth.email.value
    ensures h.userInitials == UserInitials(h.userName)
    ensures h.pageTitle == PageTitle(path)
  {
    var userName := OrDefault(auth.name, "User");
    Header(OrDefault(auth.businessName, "My Business"), userName,
      OrDefault(auth.email, "admin@example.com"), UserInitials(userName), PageTitle(path))
  }

  /** Without a signed-in user's details the header reads "My Business",
      "User", "admin@example.com", with initials "U"; an empty name counts as
      missing. */
  lemma HeaderDefaults(path: string)
    ensures var h := LayoutHeader(Auth(None, Some(""), None), path);
      h.businessName == "My Business" && h.userName == "User"
      && h.userEmail == "admin@example.com" && h.userInitials == "U"
  {
    UserInitialsOneWord("User");
  }
}
