/** The section navigation of `js/main.js`: the section id named in a nav
    link's `onclick` text, the section chosen from the URL path, and the
    page state that showing a section changes. */
module Navigation {
  import opened Common

  // ---------------------------------------------------------------------
  // The section id in a link's onclick text: /'([^']+)'/
  // ---------------------------------------------------------------------

  const Quote: char := '\''

  /** The first quote at or after `k`, or the end of `s`. */
  function RunEnd(s: string, k: nat): (j: nat)
    requires k <= |s|
    ensures k <= j <= |s|
    ensures forall m :: k <= m < j ==> s[m] != Quote
    ensures j < |s| ==> s[j] == Quote
    decreases |s| - k
  {
    if k == |s| || s[k] == Quote then k else RunEnd(s, k + 1)
  }

  /** The regular expression matches at `i`: a quote, at least one
      non-quote character, and a closing quote. Backtracking cannot help
      the greedy `[^']+`, since what follows it must be a quote. */
  predicate MatchAt(s: string, i: nat)
  {
    i < |s| && s[i] == Quote && i + 1 < RunEnd(s, i + 1) < |s|
  }

  /** The leftmost match at or after `k`. */
  function FirstMatch(s: string, k: nat): (r: Option<nat>)
    requires k <= |s|
    ensures r.Some? ==> k <= r.value < |s| && MatchAt(s, r.value)
    ensures r.Some? ==> forall m :: k <= m < r.value ==> !MatchAt(s, m)
    ensures r.None? ==> forall m :: k <= m < |s| ==> !MatchAt(s, m)
    decreases |s| - k
  {
    if k == |s| then None
    else if MatchAt(s, k) then Some(k)
    else FirstMatch(s, k + 1)
  }

  /** `onclick.match(/'([^']+)'/)[1]`; None where `match` returns null and
      the indexing throws. */
  function SectionIdOf(onclick: string): (r: Option<string>)
    ensures r.Some? ==> r.value != [] && forall m :: 0 <= m < |r.value| ==> r.value[m] != Quote
    ensures r.None? <==> forall m :: 0 <= m < |onclick| ==> !MatchAt(onclick, m)
  {
    match FirstMatch(onclick, 0)
    case None => None
    case Some(i) => Some(onclick[i + 1..RunEnd(onclick, i + 1)])
  }

  /** A call such as `showSection('about')`: the first quoted run after a
      quote-free prefix is the section id, whatever follows it. */
  lemma SectionIdOfQuoted(prefix: string, id: string, suffix: string)
    requires forall m :: 0 <= m < |prefix| ==> prefix[m] != Quote
    requires id != [] && forall m :: 0 <= m < |id| ==> id[m] != Quote
    ensures SectionIdOf(prefix + [Quote] + id + [Quote] + suffix) == Some(id)
  {
    var s := prefix + [Quote] + id + [Quote] + suffix;
    var p := |prefix|;
    assert s[p] == Quote;
    assert forall m :: p + 1 <= m < p + 1 + |id| ==> s[m] == id[m - p - 1];
    assert s[p + 1 + |id|] == Quote;
    assert RunEnd(s, p + 1) == p + 1 + |id|;
    assert MatchAt(s, p);
    assert forall m :: 0 <= m < p ==> s[m] == prefix[m];
    assert FirstMatch(s, 0) == Some(p);
    assert s[p + 1..p + 1 + |id|] == id;
  }

  /** An opening quote with no closing one, or only an empty pair, names
      no section. */
  lemma SectionIdOfUnmatched()
    ensures SectionIdOf("showSection('about)") == None
    ensures SectionIdOf("showSection('')") == None
  {
    var a := "showSection('about)";
    forall m | 0 <= m < |a| ensures !MatchAt(a, m) {
      if a[m] == Quote {
        assert m == 12;
        assert RunEnd(a, 13) == |a|;
      }
    }
    var b := "showSection('')";
    forall m | 0 <= m < |b| ensures !MatchAt(b, m) {
      if b[m] == Quote {
        assert m == 12 || m == 13;
        if m == 12 {
          assert RunEnd(b, 13) == 13;
        } else {
          assert RunEnd(b, 14) == |b|;
        }
      }
    }
  }

  // ---------------------------------------------------------------------
  // The section named by the URL path
  // ---------------------------------------------------------------------

  /** `s.split(sep)`. */
  function Split(s: string, sep: char): (r: seq<string>)
    ensures |r| >= 1
    ensures forall i :: 0 <= i < |r| ==> forall m :: 0 <= m < |r[i]| ==> r[i][m] != sep
    ensures Join(r, sep) == s
  {
    if s == [] then [[]]
    else
      var rest := Split(s[1..], sep);
      if s[0] == sep then
        assert [sep] + Join(rest, sep) == s;
        [[]] + rest
      else
        var r := [[s[0]] + rest[0]] + rest[1..];
        assert r[1..] == rest[1..];
        JoinCons(s[0], rest, sep);
        r
  }

  /** `pieces.join(sep)`. */
  function Join(pieces: seq<string>, sep: char): string
    requires |pieces| >= 1
  {
    if |pieces| == 1 then pieces[0] else pieces[0] + [sep] + Join(pieces[1..], sep)
  }

  lemma JoinCons(c: char, pieces: seq<string>, sep: char)
    requires |pieces| >= 1
    ensures Join([[c] + pieces[0]] + pieces[1..], sep) == [c] + Join(pieces, sep)
  {
    var q := [[c] + pieces[0]] + pieces[1..];
    assert q[1..] == pieces[1..];
  }

  /** A string free of the separator splits into itself alone. */
  lemma {:induction false} SplitWithoutSeparator(s: string, sep: char)
    requires forall m :: 0 <= m < |s| ==> s[m] != sep
    ensures Split(s, sep) == [s]
  {
    if s != [] {
      SplitWithoutSeparator(s[1..], sep);
    }
  }

  /** Splitting at one separator splits the two sides separately. */
  lemma {:induction false} SplitAtSeparator(a: string, b: string, sep: char)
    ensures Split(a + [sep] + b, sep) == Split(a, sep) + Split(b, sep)
  {
    if a == [] {
      assert a + [sep] + b == [sep] + b;
      assert ([sep] + b)[1..] == b;
    } else {
      var s := a + [sep] + b;
      assert s[0] == a[0];
      assert s[1..] == a[1..] + [sep] + b;
      SplitAtSeparator(a[1..], b, sep);
    }
  }

  predicate NonEmpty(segment: string)
  {
    segment != []
  }

  /** `pathname.split('/').filter(segment => segment)`. */
  function Segments(path: string): (r: seq<string>)
    ensures forall i :: 0 <= i < |r| ==> r[i] != [] && forall m :: 0 <= m < |r[i]| ==> r[i][m] != '/'
  {
    Filter(Split(path, '/'), NonEmpty)
  }

  /** Segments are what lies between slashes, so a slash adds no segment
      of its own: with `a` or `b` empty, a leading or a trailing slash is
      ignored. */
  lemma SegmentsAtSlash(a: string, b: string)
    ensures Segments(a + "/" + b) == Segments(a) + Segments(b)
  {
    SplitAtSeparator(a, b, '/');
    FilterConcat(Split(a, '/'), Split(b, '/'), NonEmpty);
  }

  lemma SegmentsOfEmpty()
    ensures Segments([]) == []
  {
    assert Split([], '/') == [[]];
    assert Filter([[]], NonEmpty) == [];
  }

  /** A leading slash is ignored. */
  lemma SegmentsLeadingSlash(b: string)
    ensures Segments("/" + b) == Segments(b)
  {
    assert "/" + b == [] + "/" + b;
    SegmentsAtSlash([], b);
    SegmentsOfEmpty();
  }

  /** A repeated slash counts as one. */
  lemma SegmentsRepeatedSlash(a: string, b: string)
    ensures Segments(a + "//" + b) == Segments(a + "/" + b)
  {
    var b' := "/" + b;
    assert a + "//" + b == a + "/" + b';
    SegmentsAtSlash(a, b');
    SegmentsLeadingSlash(b);
    SegmentsAtSlash(a, b);
  }

  /** `handleNavigation`'s choice: the first path segment; failing that
      the saved `activeSection` when it is non-empty; failing that
      `'dashboard'`. */
  function NavigationTarget(path: string, saved: Option<string>): (r: string)
    ensures r != []
    ensures Segments(path) != [] ==> r == Segments(path)[0]
    ensures Segments(path) == [] && saved.Some? && saved.value != [] ==> r == saved.value
    ensures Segments(path) == [] && (saved.None? || saved.value == []) ==> r == "dashboard"
  {
    var segments := Segments(path);
    if segments != [] then segments[0]
    else if saved.Some? && saved.value != [] then saved.value
    else "dashboard"
  }

  /** `updateURL`'s new path. */
  function URLFor(id: string): (r: string)
    ensures |r| == |id| + 1 && r[0] == '/' && r[1..] == id
  {
    "/" + id
  }

  /** The path `updateURL(id)` pushes leads `handleNavigation` back to
      `id`, for any non-empty id without a slash, whatever is saved. */
  lemma URLRoundTrip(id: string, saved: Option<string>)
    requires id != [] && forall m :: 0 <= m < |id| ==> id[m] != '/'
    ensures NavigationTarget(URLFor(id), saved) == id
  {
    SegmentsLeadingSlash(id);
    SplitWithoutSeparator(id, '/');
    assert Filter([id], NonEmpty) == [id];
  }

  // ---------------------------------------------------------------------
  // Page state: sections shown, links marked active, URLs pushed
  // ---------------------------------------------------------------------

  /** `document.getElementById(id)` among the sections: the first one
      carrying the id. */
  function IndexOf(ids: seq<string>, id: string): (r: Option<nat>)
    ensures r.None? <==> id !in ids
    ensures r.Some? ==> r.value < |ids| && ids[r.value] == id
    ensures r.Some? ==> forall m :: 0 <= m < r.value ==> ids[m] != id
  {
    if ids == [] then None
    else if ids[0] == id then Some(0)
    else match IndexOf(ids[1..], id)
      case None => None
      case Some(k) => Some(k + 1)
  }

  /** What `showSection(id)` leaves visible. */
  function Shown(ids: seq<string>, id: string): (r: seq<bool>)
    ensures |r| == |ids|
    ensures forall i :: 0 <= i < |r| && r[i] ==> ids[i] == id && forall m :: 0 <= m < i ==> ids[m] != id
  {
    var found := IndexOf(ids, id);
    var r := seq(|ids|, i requires 0 <= i < |ids| => found == Some(i));
    assert forall i :: 0 <= i < |r| && r[i] ==> found == Some(i);
    r
  }

  /** Exactly one section is visible, one carrying the id, when some
      section does; otherwise none is. */
  lemma ShownExactlyOne(ids: seq<string>, id: string)
    ensures id !in ids ==> forall i :: 0 <= i < |ids| ==> !Shown(ids, id)[i]
    ensures id in ids ==>
      exists k :: 0 <= k < |ids| && ids[k] == id && Shown(ids, id)[k] &&
        (forall m :: 0 <= m < |ids| && m != k ==> !Shown(ids, id)[m])
  {
    if id in ids {
      var k := IndexOf(ids, id).value;
      assert Shown(ids, id)[k];
    } else {
      assert IndexOf(ids, id).None?;
      forall i | 0 <= i < |ids| ensures !Shown(ids, id)[i] {
        assert Shown(ids, id)[i] == (IndexOf(ids, id) == Some(i));
      }
    }
  }

  /** The index of the first link whose onclick text names no section. */
  function FirstUnnamed(onclicks: seq<string>): (r: Option<nat>)
    ensures r.Some? ==> r.value < |onclicks| && SectionIdOf(onclicks[r.value]).None?
    ensures r.Some? ==> forall m :: 0 <= m < r.value ==> SectionIdOf(onclicks[m]).Some?
    ensures r.None? <==> forall m :: 0 <= m < |onclicks| ==> SectionIdOf(onclicks[m]).Some?
  {
    if onclicks == [] then None
    else if SectionIdOf(onclicks[0]).None? then Some(0)
    else match FirstUnnamed(onclicks[1..])
      case None => None
      case Some(k) => Some(k + 1)
  }

  /** The links' active flags after `updateActiveLink(id)`: each link up
      to the first unnamed one is active exactly when it names `id`; the
      TypeError there leaves that link and the later ones as they were. */
  function MarkedLinks(onclicks: seq<string>, active: seq<bool>, id: string): (r: seq<bool>)
    requires |active| == |onclicks|
    ensures |r| == |active|
    ensures FirstUnnamed(onclicks).None? ==>
      forall i :: 0 <= i < |r| ==> (r[i] <==> SectionIdOf(onclicks[i]) == Some(id))
    ensures FirstUnnamed(onclicks).Some? ==>
      forall i :: FirstUnnamed(onclicks).value <= i < |r| ==> r[i] == active[i]
  {
    var stop := Stop(onclicks);
    seq(|active|, i requires 0 <= i < |active| =>
      if i < stop then SectionIdOf(onclicks[i]) == Some(id) else active[i])
  }

  /** How many links `updateActiveLink` gets through. */
  function Stop(onclicks: seq<string>): (n: nat)
    ensures n <= |onclicks|
  {
    match FirstUnnamed(onclicks)
    case None => |onclicks|
    case Some(k) => k
  }

  /** Flags set as the loop sets them up to `Stop` and untouched after it
      are the flags `MarkedLinks` describes. */
  lemma MarksUpToStop(onclicks: seq<string>, before: seq<bool>, marks: seq<bool>, id: string, i: nat)
    requires |marks| == |onclicks| == |before| && i == Stop(onclicks)
    requires forall m :: 0 <= m < i ==> marks[m] == (SectionIdOf(onclicks[m]) == Some(id))
    requires forall m :: i <= m < |marks| ==> marks[m] == before[m]
    ensures marks == MarkedLinks(onclicks, before, id)
  {
  }

  /** When every link names a section, exactly the links naming `id` are
      active afterwards, whatever they were before. */
  lemma MarkedLinksAllNamed(onclicks: seq<string>, active: seq<bool>, id: string)
    requires |active| == |onclicks|
    requires forall m :: 0 <= m < |onclicks| ==> SectionIdOf(onclicks[m]).Some?
    ensures forall i :: 0 <= i < |onclicks| ==>
      (MarkedLinks(onclicks, active, id)[i] <==> SectionIdOf(onclicks[i]).value == id)
  {
  }

  /** The nav links and the content sections of the page, and what the
      script has pushed and logged. */
  class Page {
    /** The ids of `#content > section`, in document order. */
    var sectionIds: seq<string>
    /** Whether each section is displayed. */
    var displayed: seq<bool>
    /** The `onclick` text of each `nav a`, in document order. */
    var linkOnclicks: seq<string>
    /** Whether each link carries the `active` class. */
    var linkActive: seq<bool>
    /** The URLs passed to `history.pushState`. */
    var pushed: seq<string>
    /** The messages passed to `console.error`. */
    var errors: seq<string>

    ghost predicate Valid()
      reads this
    {
      |displayed| == |sectionIds| && |linkActive| == |linkOnclicks|
    }

    constructor(sections: seq<string>, shown: seq<bool>, links: seq<string>, active: seq<bool>)
      requires |shown| == |sections| && |active| == |links|
      ensures Valid()
      ensures sectionIds == sections && displayed == shown
      ensures linkOnclicks == links && linkActive == active
      ensures pushed == [] && errors == []
    {
      sectionIds := sections;
      displayed := shown;
      linkOnclicks := links;
      linkActive := active;
      pushed := [];
      errors := [];
    }

    /** `updateActiveLink(id)`; false when a link naming no section made it
      throw. */
    method UpdateActiveLink(id: string) returns (ok: bool)
      requires Valid()
      modifies this
      ensures Valid()
      ensures sectionIds == old(sectionIds) && displayed == old(displayed)
      ensures linkOnclicks == old(linkOnclicks) && pushed == old(pushed) && errors == old(errors)
      ensures linkActive == MarkedLinks(linkOnclicks, old(linkActive), id)
      ensures ok <==> FirstUnnamed(linkOnclicks).None?
    {
      var links := linkOnclicks;
      var before := linkActive;
      var marks := linkActive;
      var i := 0;
      while i < |links|
        invariant 0 <= i <= |links| && |marks| == |links| == |before|
        invariant forall m :: 0 <= m < i ==> SectionIdOf(links[m]).Some?
        invariant forall m :: 0 <= m < i ==> marks[m] == (SectionIdOf(links[m]) == Some(id))
        invariant forall m :: i <= m < |marks| ==> marks[m] == before[m]
      {
        var name := SectionIdOf(links[i]);
        if name.None? {
          assert FirstUnnamed(links) == Some(i);
          MarksUpToStop(links, before, marks, id, i);
          linkActive := marks;
          return false;
        }
        marks := marks[i := name.value == id];
        i := i + 1;
      }
      assert FirstUnnamed(links).None?;
      MarksUpToStop(links, before, marks, id, i);
      linkActive := marks;
      return true;
    }

    /** `showSection(id)`: hide every section, show the one with the id or
      log that there is none, mark the links, and push `/<id>` unless
      marking the links threw. */
    method ShowSection(id: string) returns (completed: bool)
      requires Valid()
      modifies this
      ensures Valid()
      ensures sectionIds == old(sectionIds) && linkOnclicks == old(linkOnclicks)
      ensures displayed == Shown(sectionIds, id)
      ensures id in sectionIds ==> errors == old(errors)
      ensures id !in sectionIds ==> errors == old(errors) + ["Section with ID " + id + " not found."]
      ensures linkActive == MarkedLinks(linkOnclicks, old(linkActive), id)
      ensures completed <==> FirstUnnamed(linkOnclicks).None?
      ensures completed ==> pushed == old(pushed) + [URLFor(id)]
      ensures !completed ==> pushed == old(pushed)
    {
      for i := 0 to |sectionIds|
        invariant sectionIds == old(sectionIds) && linkOnclicks == old(linkOnclicks)
        invariant |displayed| == |sectionIds|
        invariant forall m :: 0 <= m < i ==> !displayed[m]
        invariant linkActive == old(linkActive) && pushed == old(pushed) && errors == old(errors)
      {
        displayed := displayed[i := false];
      }
      var found := IndexOf(sectionIds, id);
      if found.Some? {
        displayed := displayed[found.value := true];
      } else {
        errors := errors + ["Section with ID " + id + " not found."];
      }
      assert displayed == Shown(sectionIds, id);
      completed := UpdateActiveLink(id);
      if completed {
        pushed := pushed + [URLFor(id)];
      }
    }

    /** `handleNavigation()` for the current path and the saved
      `activeSection` (None when nothing is saved). */
    method HandleNavigation(path: string, saved: Option<string>) returns (completed: bool)
      requires Valid()
      modifies this
      ensures Valid()
      ensures sectionIds == old(sectionIds) && linkOnclicks == old(linkOnclicks)
      ensures displayed == Shown(sectionIds, NavigationTarget(path, saved))
      ensures NavigationTarget(path, saved) in sectionIds ==> errors == old(errors)
      ensures NavigationTarget(path, saved) !in sectionIds ==>
        errors == old(errors) + ["Section with ID " + NavigationTarget(path, saved) + " not found."]
      ensures linkActive == MarkedLinks(linkOnclicks, old(linkActive), NavigationTarget(path, saved))
      ensures completed <==> FirstUnnamed(linkOnclicks).None?
      ensures completed ==> pushed == old(pushed) + [URLFor(NavigationTarget(path, saved))]
      ensures !completed ==> pushed == old(pushed)
    {
      completed := ShowSection(NavigationTarget(path, saved));
    }

    /** The click handler of link `i`: the id from its onclick text, then
      `showSection`; a link naming no section throws before anything
      changes. */
    method ClickLink(i: nat) returns (completed: bool)
      requires Valid() && i < |linkOnclicks|
      modifies this
      ensures Valid()
      ensures sectionIds == old(sectionIds) && linkOnclicks == old(linkOnclicks)
      ensures SectionIdOf(linkOnclicks[i]).None? ==>
        && !completed && displayed == old(displayed) && linkActive == old(linkActive)
        && pushed == old(pushed) && errors == old(errors)
      ensures SectionIdOf(linkOnclicks[i]).Some? ==> (
        var id := SectionIdOf(linkOnclicks[i]).value;
        && displayed == Shown(sectionIds, id)
        && (id in sectionIds ==> errors == old(errors))
        && (id !in sectionIds ==> errors == old(errors) + ["Section with ID " + id + " not found."])
        && linkActive == MarkedLinks(linkOnclicks, old(linkActive), id)
        && (completed <==> FirstUnnamed(linkOnclicks).None?)
        && (completed ==> pushed == old(pushed) + [URLFor(id)])
        && (!completed ==> pushed == old(pushed)))
      ensures completed ==> linkActive[i]
    {
      var name := SectionIdOf(linkOnclicks[i]);
      if name.None? {
        return false;
      }
      completed := ShowSection(name.value);
    }
  }
}
