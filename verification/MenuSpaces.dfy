/** The menu is split into spaces, and the generated endpoint pages are nested under one of its entries. */
module MenuSpaces {
  import opened Common
  import opened MenuPaths

  datatype Space = Space(title: string, lines: Menu)
  datatype Refusal = LineBeforeHeading(line: nat) | SpaceWithoutPage(title: string)

  /** The lines of the spaces one after the other, each under its heading. */
  function Joined(spaces: seq<Space>): Menu {
    if spaces == [] then []
    else
      var last := spaces[|spaces| - 1];
      Joined(spaces[..|spaces| - 1]) + [SpaceHeading(last.title)] + last.lines
  }

  function AllPages(spaces: seq<Space>): seq<string> {
    if spaces == [] then [] else AllPages(spaces[..|spaces| - 1]) + Pages(spaces[|spaces| - 1].lines)
  }

  lemma {:induction false} PagesOfJoined(spaces: seq<Space>)
    ensures Pages(Joined(spaces)) == AllPages(spaces)
  {
    if spaces != [] {
      var last := spaces[|spaces| - 1];
      PagesOfJoined(spaces[..|spaces| - 1]);
      PagesOfParts(Joined(spaces[..|spaces| - 1]) + [SpaceHeading(last.title)], last.lines);
      PagesOfParts(Joined(spaces[..|spaces| - 1]), [SpaceHeading(last.title)]);
    }
  }

  predicate AllBlank(menu: Menu) {
    forall k :: 0 <= k < |menu| ==> menu[k].Blank?
  }

  lemma {:induction false} NoPagesInBlank(menu: Menu)
    requires AllBlank(menu)
    ensures Pages(menu) == []
  {
    if menu != [] {
      NoPagesInBlank(menu[..|menu| - 1]);
    }
  }

  /** The spaces are the menu: blank lines, and then every line under its heading, in order. */
  ghost predicate IsSplit(menu: Menu, spaces: seq<Space>, blank: nat) {
    blank <= |menu| && AllBlank(menu[..blank]) && menu == menu[..blank] + Joined(spaces)
    && forall k :: 0 <= k < |spaces| ==> forall l :: 0 <= l < |spaces[k].lines| ==> !spaces[k].lines[l].SpaceHeading?
  }

  /** A line that is not blank, with no heading above it. */
  predicate IsStray(menu: Menu, i: nat) {
    i < |menu| && !menu[i].Blank? && forall k :: 0 <= k <= i ==> !menu[k].SpaceHeading?
  }

  predicate LacksPages(spaces: seq<Space>, title: string) {
    exists k :: 0 <= k < |spaces| && Pages(spaces[k].lines) == [] && spaces[k].title == title
  }

  method Split(menu: Menu) returns (result: Result<seq<Space>, Refusal>, ghost blank: nat)
    ensures result.Ok? ==> IsSplit(menu, result.value, blank) && forall k :: 0 <= k < |result.value| ==>
      Pages(result.value[k].lines) != []
    ensures (exists i: nat :: IsStray(menu, i)) <==> result.Err? && result.error.LineBeforeHeading?
    ensures result.Err? && result.error.LineBeforeHeading? ==> IsStray(menu, result.error.line)
    ensures result.Err? && result.error.SpaceWithoutPage? ==>
      exists spaces :: IsSplit(menu, spaces, blank) && LacksPages(spaces, result.error.title)
  {
    hide IsSplit, Pages;
    var spaces: seq<Space> := [];
    blank := 0;
    NothingSplitYet(menu);
    var i := 0;
    while i < |menu|
      invariant 0 <= i <= |menu|
      invariant IsSplit(menu[..i], spaces, blank)
      invariant spaces == [] ==> blank == i && forall k :: 0 <= k < i ==> menu[k].Blank?
      invariant spaces != [] ==> forall k: nat :: !IsStray(menu, k)
    {
      if menu[i].SpaceHeading? {
        AddHeading(menu, i, spaces, blank);
        spaces := spaces + [Space(menu[i].title, [])];
      } else if spaces != [] {
        var last := spaces[|spaces| - 1];
        AddLine(menu, i, spaces, blank);
        spaces := spaces[|spaces| - 1 := last.(lines := last.lines + [menu[i]])];
      } else if !menu[i].Blank? {
        assert IsStray(menu, i);
        return Err(LineBeforeHeading(i)), blank;
      } else {
        AddBlank(menu, i);
        blank := i + 1;
      }
      i := i + 1;
    }
    assert menu[..i] == menu;
    var j := 0;
    while j < |spaces|
      invariant 0 <= j <= |spaces|
      invariant forall k :: 0 <= k < j ==> Pages(spaces[k].lines) != []
    {
      if Pages(spaces[j].lines) == [] {
        assert LacksPages(spaces, spaces[j].title);
        return Err(SpaceWithoutPage(spaces[j].title)), blank;
      }
      j := j + 1;
    }
    return Ok(spaces), blank;
  }

  lemma NothingSplitYet(menu: Menu)
    ensures IsSplit(menu[..0], [], 0)
  {
  }

  lemma AddHeading(menu: Menu, i: nat, spaces: seq<Space>, blank: nat)
    requires i < |menu| && menu[i].SpaceHeading? && IsSplit(menu[..i], spaces, blank)
    ensures IsSplit(menu[..i + 1], spaces + [Space(menu[i].title, [])], blank)
    ensures (forall k :: 0 <= k < i ==> menu[k].Blank?) ==> forall k: nat :: !IsStray(menu, k)
  {
    var now := spaces + [Space(menu[i].title, [])];
    assert now[..|now| - 1] == spaces;
    assert menu[..i + 1] == menu[..i] + [menu[i]];
    assert menu[..i + 1][..blank] == menu[..i][..blank];
  }

  lemma AddLine(menu: Menu, i: nat, spaces: seq<Space>, blank: nat)
    requires i < |menu| && !menu[i].SpaceHeading? && IsSplit(menu[..i], spaces, blank) && spaces != []
    ensures var last := spaces[|spaces| - 1];
      IsSplit(menu[..i + 1], spaces[|spaces| - 1 := last.(lines := last.lines + [menu[i]])], blank)
  {
    var last := spaces[|spaces| - 1];
    var now := spaces[|spaces| - 1 := last.(lines := last.lines + [menu[i]])];
    assert now[..|now| - 1] == spaces[..|spaces| - 1];
    assert Joined(now) == Joined(spaces) + [menu[i]];
    assert menu[..i + 1] == menu[..i] + [menu[i]];
    assert menu[..i + 1][..blank] == menu[..i][..blank];
  }

  lemma AddBlank(menu: Menu, i: nat)
    requires i < |menu| && forall k :: 0 <= k <= i ==> menu[k].Blank?
    ensures IsSplit(menu[..i + 1], [], i + 1)
  {
  }

  /** Splitting loses no page, repeats none, and keeps their order. */
  lemma SplitKeepsPages(menu: Menu, spaces: seq<Space>, blank: nat)
    requires IsSplit(menu, spaces, blank)
    ensures AllPages(spaces) == Pages(menu)
  {
    NoPagesInBlank(menu[..blank]);
    PagesOfParts(menu[..blank], Joined(spaces));
    PagesOfJoined(spaces);
  }

  // ---- the endpoint pages --------------------------------------------------------------------------------

  /** How far a line that is not blank is indented. */
  function Indent(line: Line): nat {
    match line
    case Entry(depth, _, _) => depth
    case Other(depth, _) => depth
    case _ => 0
  }

  /** The line after the children of entry `at`: the first that is blank or no deeper. */
  function EndOfChildren(menu: Menu, at: nat, from: nat): (end: nat)
    requires at < from <= |menu| && menu[at].Entry?
    ensures from <= end <= |menu|
    ensures forall k :: from <= k < end ==> !menu[k].Blank? && Indent(menu[k]) > menu[at].depth
    ensures end < |menu| ==> menu[end].Blank? || Indent(menu[end]) <= menu[at].depth
    decreases |menu| - from
  {
    if from < |menu| && !menu[from].Blank? && Indent(menu[from]) > menu[at].depth then EndOfChildren(menu, at, from + 1)
    else from
  }

  datatype EndpointPage = EndpointPage(page: string, slug: string)

  function EntryFor(page: EndpointPage, depth: nat): Line {
    Entry(depth, page.page, page.slug)
  }

  function EntriesFor(pages: seq<EndpointPage>, depth: nat): (entries: Menu)
    ensures |entries| == |pages|
  {
    seq(|pages|, k requires 0 <= k < |pages| => EntryFor(pages[k], depth))
  }

  function Inserted(menu: Menu, end: nat, entries: Menu): Menu
    requires end <= |menu|
  {
    menu[..end] + entries + menu[end..]
  }

  function NestedAt(menu: Menu, at: nat, pages: seq<EndpointPage>): Menu
    requires at < |menu| && menu[at].Entry?
  {
    Inserted(menu, EndOfChildren(menu, at, at + 1), EntriesFor(pages, menu[at].depth + 2))
  }

  method FindEnd(menu: Menu, at: nat) returns (end: nat)
    requires at < |menu| && menu[at].Entry?
    ensures end == EndOfChildren(menu, at, at + 1)
  {
    end := at + 1;
    while end < |menu| && !menu[end].Blank? && Indent(menu[end]) > menu[at].depth
      invariant at < end <= |menu| && EndOfChildren(menu, at, end) == EndOfChildren(menu, at, at + 1)
    {
      end := end + 1;
    }
  }

  lemma ListedPage(menu: Menu, i: nat)
    requires i < |menu| && menu[i].Entry?
    ensures menu[i].page in Pages(menu)
  {
    assert menu == menu[..i + 1] + menu[i + 1..];
    PagesOfParts(menu[..i + 1], menu[i + 1..]);
  }

  /** Under the first entry of the parent page, or refused if the menu does not list it. */
  method NestEndpointPages(menu: Menu, parent: string, pages: seq<EndpointPage>) returns (result: Result<Menu, ()>)
    ensures result.Err? <==> parent !in Pages(menu)
    ensures result.Ok? ==>
      exists at :: 0 <= at < |menu| && IsFirstListing(menu, at, parent) && result.value == NestedAt(menu, at, pages)
    ensures result.Ok? ==>
      exists at, end :: IsFirstListing(menu, at, parent) && IsNested(menu, at, end, pages, result.value)
  {
    hide EndOfChildren, Inserted;
    var i := 0;
    while i < |menu|
      invariant 0 <= i <= |menu| && parent !in Pages(menu[..i])
    {
      assert menu[..i + 1][..i] == menu[..i];
      if menu[i].Entry? && menu[i].page == parent {
        var end := FindEnd(menu, i);
        ListedPage(menu, i);
        assert IsFirstListing(menu, i, parent);
        InsertedIsNested(menu, i, pages);
        return Ok(Inserted(menu, end, EntriesFor(pages, menu[i].depth + 2)));
      }
      i := i + 1;
    }
    assert menu[..i] == menu;
    return Err(());
  }

  /** An entry or another line that starts further right; not a heading, nor a blank line. */
  predicate IsFurtherRight(line: Line, depth: nat) {
    match line
    case Entry(d, _, _) => depth < d
    case Other(d, _) => depth < d
    case _ => false
  }

  /** Two columns right of the entry, one line for each page, after the last line in a row right of the entry. */
  ghost predicate IsNested(menu: Menu, at: nat, end: nat, pages: seq<EndpointPage>, now: Menu) {
    && at < end <= |menu| && menu[at].Entry?
    && (forall k :: at < k < end ==> IsFurtherRight(menu[k], menu[at].depth))
    && (end < |menu| ==> !IsFurtherRight(menu[end], menu[at].depth))
    && |now| == |menu| + |pages| && now[..end] == menu[..end] && now[end + |pages|..] == menu[end..]
    && forall k :: 0 <= k < |pages| ==> now[end + k] == Entry(menu[at].depth + 2, pages[k].page, pages[k].slug)
  }

  lemma InsertedIsNested(menu: Menu, at: nat, pages: seq<EndpointPage>)
    requires at < |menu| && menu[at].Entry?
    ensures IsNested(menu, at, EndOfChildren(menu, at, at + 1), pages, NestedAt(menu, at, pages))
  {
    var end, entries := EndOfChildren(menu, at, at + 1), EntriesFor(pages, menu[at].depth + 2);
    var now := NestedAt(menu, at, pages);
    LinesOfInserted(menu, end, entries, now);
    assert now[end + |pages|..] == menu[end..];
  }

  predicate IsFirstListing(menu: Menu, at: nat, page: string) {
    at < |menu| && menu[at].Entry? && menu[at].page == page && page !in Pages(menu[..at])
  }

  /** Where a line of the menu is once the entries are in. */
  function Shifted(i: nat, end: nat, count: nat): nat {
    if i < end then i else i + count
  }

  lemma {:induction false} NearestInFront(menu: Menu, now: Menu, i: nat, depth: nat)
    requires i <= |menu| && i <= |now| && menu[..i] == now[..i]
    ensures NearestAbove(now, i, depth) == NearestAbove(menu, i, depth)
    ensures GroupAbove(now, i) == GroupAbove(menu, i)
  {
    if i > 0 {
      assert menu[..i][..i - 1] == menu[..i - 1] && now[..i][..i - 1] == now[..i - 1];
      assert menu[i - 1] == menu[..i][i - 1] == now[..i][i - 1] == now[i - 1];
      NearestInFront(menu, now, i - 1, depth);
    }
  }

  ghost predicate IsInserted(menu: Menu, end: nat, entries: Menu, now: Menu, depth: nat) {
    end <= |menu| && now == Inserted(menu, end, entries)
    && forall k :: 0 <= k < |entries| ==> entries[k].Entry? && entries[k].depth == depth
  }

  lemma LinesOfInserted(menu: Menu, end: nat, entries: Menu, now: Menu)
    requires end <= |menu| && now == Inserted(menu, end, entries)
    ensures |now| == |menu| + |entries| && now[..end] == menu[..end]
    ensures forall k :: 0 <= k < |entries| ==> now[end + k] == entries[k]
    ensures forall k :: end <= k < |menu| ==> now[k + |entries|] == menu[k]
  {
  }

  /** Among the new entries: a less deep one is above them. */
  lemma {:induction false} NearestAmongNew(menu: Menu, end: nat, entries: Menu, now: Menu, depth: nat, count: nat,
                                           sought: nat)
    requires IsInserted(menu, end, entries, now, depth) && count <= |entries|
    ensures |now| == |menu| + |entries|
    ensures sought <= depth || count == 0 ==> NearestAbove(now, end + count, sought) == NearestAbove(menu, end, sought)
    ensures sought > depth && count > 0 ==> NearestAbove(now, end + count, sought) == Some(end + count - 1)
    ensures GroupAbove(now, end + count) == GroupAbove(menu, end)
  {
    LinesOfInserted(menu, end, entries, now);
    if count == 0 {
      NearestInFront(menu, now, end, sought);
    } else {
      assert now[end + (count - 1)] == entries[count - 1];
      NearestAmongNew(menu, end, entries, now, depth, count - 1, sought);
    }
  }

  function ShiftedParent(parent: Option<nat>, end: nat, count: nat): Option<nat> {
    if parent.None? then None else Some(Shifted(parent.value, end, count))
  }

  /** Some entry between the new ones and line `i` is less deep. */
  predicate SeenBelow(menu: Menu, end: nat, i: nat, sought: nat)
    requires end <= i <= |menu|
  {
    exists k :: end <= k < i && menu[k].Entry? && menu[k].depth < sought
  }

  /** Looking up from line `i`, a heading or a less deep entry comes before line `end`. */
  predicate StopsBelow(menu: Menu, end: nat, i: nat, sought: nat)
    requires end <= i <= |menu|
  {
    LastHeading(menu, i) > end || SeenBelow(menu, end, i, sought)
  }

  lemma StopsBelowStep(menu: Menu, end: nat, i: nat, sought: nat)
    requires end < i <= |menu|
    ensures StopsBelow(menu, end, i, sought) <==>
      menu[i - 1].GroupHeading? || (menu[i - 1].Entry? && menu[i - 1].depth < sought)
      || StopsBelow(menu, end, i - 1, sought)
  {
  }

  /** Where the search from line `i` ends once the entries are in. */
  function NearestPast(menu: Menu, end: nat, count: nat, depth: nat, i: nat, sought: nat): Option<nat>
    requires end <= i <= |menu|
  {
    if StopsBelow(menu, end, i, sought) || count == 0 || sought <= depth
    then ShiftedParent(NearestAbove(menu, i, sought), end, count) else Some(end + count - 1)
  }

  /** Below the new entries the same line is found as before, unless it is sought past them and they are less deep. */
  lemma {:induction false} NearestBelowNew(menu: Menu, end: nat, entries: Menu, now: Menu, depth: nat, i: nat,
                                           sought: nat)
    requires IsInserted(menu, end, entries, now, depth) && end <= i <= |menu|
    ensures |now| == |menu| + |entries| && GroupAbove(now, i + |entries|) == GroupAbove(menu, i)
    ensures NearestAbove(now, i + |entries|, sought) == NearestPast(menu, end, |entries|, depth, i, sought)
  {
    hide *;
    if i == end {
      NearestAtNew(menu, end, entries, now, depth, sought);
    } else {
      LineBelowNew(menu, end, entries, now, depth, i);
      NearestBelowNew(menu, end, entries, now, depth, i - 1, sought);
      NearestPastStep(menu, end, |entries|, depth, i, sought, now);
    }
  }

  lemma LineBelowNew(menu: Menu, end: nat, entries: Menu, now: Menu, depth: nat, i: nat)
    requires IsInserted(menu, end, entries, now, depth) && end < i <= |menu|
    ensures |now| == |menu| + |entries| && now[i - 1 + |entries|] == menu[i - 1]
  {
  }

  lemma NearestAtNew(menu: Menu, end: nat, entries: Menu, now: Menu, depth: nat, sought: nat)
    requires IsInserted(menu, end, entries, now, depth)
    ensures |now| == |menu| + |entries| && GroupAbove(now, end + |entries|) == GroupAbove(menu, end)
    ensures NearestAbove(now, end + |entries|, sought) == NearestPast(menu, end, |entries|, depth, end, sought)
  {
    hide NearestAbove, GroupAbove, StopsBelow;
    NearestAmongNew(menu, end, entries, now, depth, |entries|, sought);
    NothingStopsYet(menu, end, sought);
  }

  lemma NearestPastStep(menu: Menu, end: nat, count: nat, depth: nat, i: nat, sought: nat, now: Menu)
    requires end < i <= |menu| && |now| == |menu| + count && now[i - 1 + count] == menu[i - 1]
    requires GroupAbove(now, i - 1 + count) == GroupAbove(menu, i - 1)
    requires NearestAbove(now, i - 1 + count, sought) == NearestPast(menu, end, count, depth, i - 1, sought)
    ensures GroupAbove(now, i + count) == GroupAbove(menu, i)
    ensures NearestAbove(now, i + count, sought) == NearestPast(menu, end, count, depth, i, sought)
  {
    hide NearestAbove, GroupAbove, StopsBelow;
    StopsBelowStep(menu, end, i, sought);
    NearestStep(menu, i, sought);
    NearestStep(now, i + count, sought);
  }

  lemma NothingStopsYet(menu: Menu, end: nat, sought: nat)
    requires end <= |menu|
    ensures !StopsBelow(menu, end, end, sought)
  {
  }

  lemma NearestStep(menu: Menu, i: nat, sought: nat)
    requires 0 < i <= |menu|
    ensures NearestAbove(menu, i, sought)
      == (if menu[i - 1].GroupHeading? then None
          else if menu[i - 1].Entry? && menu[i - 1].depth < sought then Some(i - 1)
          else NearestAbove(menu, i - 1, sought))
    ensures GroupAbove(menu, i) == (if menu[i - 1].GroupHeading? then menu[i - 1].slug else GroupAbove(menu, i - 1))
  {
  }

  // ---- nesting moves no other page -----------------------------------------------------------------------

  /** An entry under a blank line, deeper than the endpoint pages and with nothing less deep between it and them. */
  predicate IsTakenOver(menu: Menu, at: nat, i: nat)
    requires at < |menu| && menu[at].Entry? && i < |menu| && menu[i].Entry?
  {
    var end := EndOfChildren(menu, at, at + 1);
    i >= end && menu[i].depth > menu[at].depth + 2 && !StopsBelow(menu, end, i, menu[i].depth)
  }

  lemma NestedIsInserted(menu: Menu, at: nat, pages: seq<EndpointPage>)
    requires at < |menu| && menu[at].Entry?
    ensures IsInserted(menu, EndOfChildren(menu, at, at + 1), EntriesFor(pages, menu[at].depth + 2),
                       NestedAt(menu, at, pages), menu[at].depth + 2)
  {
  }

  lemma LineShifts(menu: Menu, at: nat, pages: seq<EndpointPage>, i: nat)
    requires at < |menu| && menu[at].Entry? && i < |menu|
    ensures var now, j := NestedAt(menu, at, pages), Shifted(i, EndOfChildren(menu, at, at + 1), |pages|);
      j < |now| && now[j] == menu[i]
  {
  }

  /** Every entry keeps its parent and its group, but for those taken over by the last endpoint page. */
  lemma ParentKept(menu: Menu, at: nat, pages: seq<EndpointPage>, i: nat)
    requires at < |menu| && menu[at].Entry? && i < |menu| && menu[i].Entry?
    ensures var now, end := NestedAt(menu, at, pages), EndOfChildren(menu, at, at + 1);
      var j := Shifted(i, end, |pages|);
      && j < |now| && now[j] == menu[i] && GroupAbove(now, j) == GroupAbove(menu, i)
      && (ParentOf(now, j) == ShiftedParent(ParentOf(menu, i), end, |pages|)
          <==> pages == [] || !IsTakenOver(menu, at, i))
  {
    LineShifts(menu, at, pages, i);
    NestedIsInserted(menu, at, pages);
    var now, end := NestedAt(menu, at, pages), EndOfChildren(menu, at, at + 1);
    var entries := EntriesFor(pages, menu[at].depth + 2);
    hide NestedAt, IsInserted, NearestAbove, GroupAbove, StopsBelow, EndOfChildren, EntriesFor;
    if i < end {
      FrontOfInserted(menu, end, entries, now, menu[at].depth + 2);
      assert menu[..i] == menu[..end][..i] && now[..i] == now[..end][..i];
      NearestInFront(menu, now, i, menu[i].depth);
    } else {
      NearestBelowNew(menu, end, entries, now, menu[at].depth + 2, i, menu[i].depth);
    }
  }

  lemma FrontOfInserted(menu: Menu, end: nat, entries: Menu, now: Menu, depth: nat)
    requires IsInserted(menu, end, entries, now, depth)
    ensures |now| == |menu| + |entries| && now[..end] == menu[..end]
  {
  }

  /** Where neither a page nor any of its ancestors is taken over, the page keeps the path it had. */
  lemma {:induction false} PathKept(menu: Menu, at: nat, pages: seq<EndpointPage>, i: nat)
    requires at < |menu| && menu[at].Entry? && i < |menu| && menu[i].Entry?
    requires forall k :: k in Ancestors(menu, i) ==> !IsTakenOver(menu, at, k)
    ensures var now, j := NestedAt(menu, at, pages), Shifted(i, EndOfChildren(menu, at, at + 1), |pages|);
      j < |now| && now[j].Entry? && PathOf(now, j) == PathOf(menu, i)
    decreases i
  {
    hide IsTakenOver, NestedAt, NearestAbove, GroupAbove, EndOfChildren;
    assert i in Ancestors(menu, i);
    ParentKept(menu, at, pages, i);
    var parent := ParentOf(menu, i);
    if parent.Some? {
      assert forall k :: k in Ancestors(menu, parent.value) ==> k in Ancestors(menu, i);
      PathKept(menu, at, pages, parent.value);
    }
  }

  /** An entry four columns deep under a blank line is taken over by the pages nested above it. */
  lemma TakenOverEntryExists(page: EndpointPage) returns (menu: Menu)
    ensures |menu| == 3 && menu[0].Entry? && menu[2].Entry? && IsTakenOver(menu, 0, 2)
    ensures ParentOf(menu, 2) == Some(0) && NestedAt(menu, 0, [page]) == [menu[0], EntryFor(page, 2), Blank, menu[2]]
    ensures ParentOf(NestedAt(menu, 0, [page]), 3) == Some(1)
  {
    menu := [Entry(0, "api-reference.md", "api-reference"), Blank, Entry(4, "errors.md", "errors")];
    var now := NestedAt(menu, 0, [page]);
    assert now[1] == EntryFor(page, 2);
    assert NearestAbove(now, 2, 4) == Some(1);
  }

  lemma EntryOfPage(menu: Menu, at: nat, pages: seq<EndpointPage>, k: nat)
    requires at < |menu| && menu[at].Entry? && k < |pages|
    ensures var now, j := NestedAt(menu, at, pages), EndOfChildren(menu, at, at + 1) + k;
      j < |now| && now[j] == EntryFor(pages[k], menu[at].depth + 2)
  {
    var end, entries := EndOfChildren(menu, at, at + 1), EntriesFor(pages, menu[at].depth + 2);
    LinesOfInserted(menu, end, entries, NestedAt(menu, at, pages));
    assert NestedAt(menu, at, pages)[end + k] == entries[k];
  }

  /** An endpoint page is a child of the parent page exactly when that page has no child only one column deeper. */
  lemma EndpointPageIsAChild(menu: Menu, at: nat, pages: seq<EndpointPage>, k: nat)
    requires at < |menu| && menu[at].Entry? && k < |pages|
    ensures var now, j := NestedAt(menu, at, pages), EndOfChildren(menu, at, at + 1) + k;
      && j < |now| && now[j] == Entry(menu[at].depth + 2, pages[k].page, pages[k].slug)
      && (ParentOf(now, j) == Some(at) <==> !HasShallowChild(menu, at))
  {
    hide NestedAt, IsInserted, NearestAbove, EndOfChildren;
    var end, depth := EndOfChildren(menu, at, at + 1), menu[at].depth + 2;
    EntryOfPage(menu, at, pages, k);
    NestedIsInserted(menu, at, pages);
    NearestAmongNew(menu, end, EntriesFor(pages, depth), NestedAt(menu, at, pages), depth, k, depth);
    ParentIsNearest(menu, at, end);
  }

  predicate HasShallowChild(menu: Menu, at: nat)
    requires at < |menu| && menu[at].Entry?
  {
    exists k :: at < k < EndOfChildren(menu, at, at + 1) && menu[k].Entry? && menu[k].depth == menu[at].depth + 1
  }

  /** A child one column deeper takes the endpoint pages. */
  lemma ShallowChildExists() returns (menu: Menu)
    ensures |menu| == 2 && menu[0].Entry? && HasShallowChild(menu, 0)
  {
    menu := [Entry(0, "api-reference.md", "api-reference"), Entry(1, "errors.md", "errors")];
    assert EndOfChildren(menu, 0, 1) == 2;
    assert menu[1].Entry? && menu[1].depth == menu[0].depth + 1;
  }

  lemma {:induction false} ParentIsNearest(menu: Menu, at: nat, i: nat)
    requires at < |menu| && menu[at].Entry? && at < i <= EndOfChildren(menu, at, at + 1)
    ensures NearestAbove(menu, i, menu[at].depth + 2) == Some(at) <==>
      !exists k :: at < k < i && menu[k].Entry? && menu[k].depth == menu[at].depth + 1
  {
    if i > at + 1 {
      ParentIsNearest(menu, at, i - 1);
      assert Indent(menu[i - 1]) > menu[at].depth;
    }
  }
}
