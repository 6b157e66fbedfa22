/** The menu of the documentation site: its spaces, and the path each page gets inside its space. */
module MenuPaths {
  import opened Common

  /** A menu line as the four patterns read it; `slug` is the slug of the entry's file name without its extension. */
  datatype Line =
    | SpaceHeading(title: string)
    | GroupHeading(slug: string)
    | Entry(depth: nat, page: string, slug: string)
    | Blank
    | Other(depth: nat, text: string)

  type Menu = seq<Line>

  function Pages(menu: Menu): seq<string> {
    if menu == [] then []
    else Pages(menu[..|menu| - 1]) + (if menu[|menu| - 1].Entry? then [menu[|menu| - 1].page] else [])
  }

  lemma {:induction false} PagesOfParts(a: Menu, b: Menu)
    ensures Pages(a + b) == Pages(a) + Pages(b)
  {
    if b == [] {
      assert a + b == a;
    } else {
      PagesOfParts(a, b[..|b| - 1]);
      assert (a + b)[..|a + b| - 1] == a + b[..|b| - 1];
    }
  }

  // ---- the tree the menu draws ---------------------------------------------------------------------------

  /** The parts that are not empty, with slashes between them. */
  function JoinTwo(prefix: string, slug: string): string {
    if prefix == "" then slug
    else if slug == "" then prefix
    else prefix + "/" + slug
  }

  /** The slug of the last group heading above line `i`. */
  function GroupAbove(menu: Menu, i: nat): string
    requires i <= |menu|
  {
    if i == 0 then "" else if menu[i - 1].GroupHeading? then menu[i - 1].slug else GroupAbove(menu, i - 1)
  }

  /** The nearest entry above line `i` in its group that is less deep than `depth`. */
  function NearestAbove(menu: Menu, i: nat, depth: nat): (parent: Option<nat>)
    requires i <= |menu|
    ensures parent.Some? ==> parent.value < i && menu[parent.value].Entry? && menu[parent.value].depth < depth
  {
    if i == 0 || menu[i - 1].GroupHeading? then None
    else if menu[i - 1].Entry? && menu[i - 1].depth < depth then Some(i - 1)
    else NearestAbove(menu, i - 1, depth)
  }

  /** The line under the last group heading above line `i`, or the first line. */
  function LastHeading(menu: Menu, i: nat): (start: nat)
    requires i <= |menu|
    ensures start <= i
  {
    if i == 0 || menu[i - 1].GroupHeading? then i else LastHeading(menu, i - 1)
  }

  /** It is the nearest: nothing between is less deep or a heading, and if there is none, nothing in the group is. */
  lemma {:induction false} NearestIsNearest(menu: Menu, i: nat, depth: nat)
    requires i <= |menu|
    ensures var parent := NearestAbove(menu, i, depth);
      if parent.Some? then
        forall k :: parent.value < k < i ==> !menu[k].GroupHeading? && (menu[k].Entry? ==> menu[k].depth >= depth)
      else
        forall k :: LastHeading(menu, i) <= k < i && menu[k].Entry? ==> menu[k].depth >= depth
  {
    if i > 0 && !menu[i - 1].GroupHeading? && !(menu[i - 1].Entry? && menu[i - 1].depth < depth) {
      NearestIsNearest(menu, i - 1, depth);
    }
  }

  function ParentOf(menu: Menu, i: nat): (parent: Option<nat>)
    requires i < |menu| && menu[i].Entry?
    ensures parent.Some? ==> parent.value < i && menu[parent.value].Entry? && menu[parent.value].depth < menu[i].depth
  {
    NearestAbove(menu, i, menu[i].depth)
  }

  /** Where an entry is in the tree: under its parent, or at the top of its group. */
  function PathOf(menu: Menu, i: nat): string
    requires i < |menu| && menu[i].Entry?
  {
    var parent := ParentOf(menu, i);
    JoinTwo(if parent.Some? then PathOf(menu, parent.value) else GroupAbove(menu, i), menu[i].slug)
  }

  /** The entry's ancestors from the top, and the entry itself. */
  function Ancestors(menu: Menu, i: nat): (chain: seq<nat>)
    requires i < |menu| && menu[i].Entry?
    ensures chain != [] && chain[|chain| - 1] == i
    ensures forall k :: 0 <= k < |chain| ==> chain[k] <= i && menu[chain[k]].Entry?
  {
    var parent := ParentOf(menu, i);
    (if parent.Some? then Ancestors(menu, parent.value) else []) + [i]
  }

  function JoinAll(prefix: string, menu: Menu, chain: seq<nat>): string
    requires forall k :: 0 <= k < |chain| ==> chain[k] < |menu| && menu[chain[k]].Entry?
  {
    if chain == [] then prefix
    else JoinTwo(JoinAll(prefix, menu, chain[..|chain| - 1]), menu[chain[|chain| - 1]].slug)
  }

  lemma {:induction false} SameGroupAbove(menu: Menu, j: nat, i: nat)
    requires j <= i <= |menu| && forall k :: j <= k < i ==> !menu[k].GroupHeading?
    ensures GroupAbove(menu, i) == GroupAbove(menu, j)
  {
    if j < i {
      SameGroupAbove(menu, j, i - 1);
    }
  }

  lemma {:induction false} JoinedIsJoinAll(menu: Menu, i: nat)
    requires i < |menu| && menu[i].Entry?
    ensures PathOf(menu, i) == JoinAll(GroupAbove(menu, i), menu, Ancestors(menu, i))
  {
    var parent := ParentOf(menu, i);
    var chain := Ancestors(menu, i);
    if parent.Some? {
      JoinedIsJoinAll(menu, parent.value);
      NearestIsNearest(menu, i, menu[i].depth);
      SameGroupAbove(menu, parent.value, i);
      assert chain[..|chain| - 1] == Ancestors(menu, parent.value);
    } else {
      assert chain[..|chain| - 1] == [];
    }
  }

  function Slugs(menu: Menu, chain: seq<nat>): (slugs: seq<string>)
    requires forall k :: 0 <= k < |chain| ==> chain[k] < |menu| && menu[chain[k]].Entry?
    ensures |slugs| == |chain| && forall k :: 0 <= k < |chain| ==> slugs[k] == menu[chain[k]].slug
  {
    seq(|chain|, k requires 0 <= k < |chain| => menu[chain[k]].slug)
  }

  function NotEmpty(parts: seq<string>): seq<string> {
    if parts == [] then [] else (if parts[0] == "" then [] else [parts[0]]) + NotEmpty(parts[1..])
  }

  /** The parts with a slash between each two. */
  function Slashed(parts: seq<string>): string {
    if parts == [] then "" else if |parts| == 1 then parts[0] else parts[0] + "/" + Slashed(parts[1..])
  }

  lemma {:induction false} SlashedOneMore(parts: seq<string>, last: string)
    requires parts != []
    ensures Slashed(parts + [last]) == Slashed(parts) + "/" + last
  {
    if |parts| > 1 {
      assert (parts + [last])[1..] == parts[1..] + [last];
      SlashedOneMore(parts[1..], last);
    } else {
      assert (parts + [last])[1..] == [last];
    }
  }

  lemma {:induction false} NotEmptyOneMore(parts: seq<string>, last: string)
    ensures NotEmpty(parts + [last]) == NotEmpty(parts) + if last == "" then [] else [last]
  {
    if parts != [] {
      assert (parts + [last])[1..] == parts[1..] + [last];
      NotEmptyOneMore(parts[1..], last);
    }
  }

  lemma {:induction false} SlashedIsEmpty(parts: seq<string>)
    ensures Slashed(NotEmpty(parts)) == "" <==> NotEmpty(parts) == []
  {
    if parts != [] {
      SlashedIsEmpty(parts[1..]);
      if parts[0] != "" {
        assert NotEmpty(parts)[0] == parts[0];
      }
    }
  }

  lemma {:induction false} JoinAllIsSlashed(prefix: string, menu: Menu, chain: seq<nat>)
    requires forall k :: 0 <= k < |chain| ==> chain[k] < |menu| && menu[chain[k]].Entry?
    ensures JoinAll(prefix, menu, chain) == Slashed(NotEmpty([prefix] + Slugs(menu, chain)))
  {
    if chain == [] {
      assert [prefix] + Slugs(menu, chain) == [prefix];
      NotEmptyOneMore([], prefix);
      assert [] + [prefix] == [prefix];
    } else {
      var front, last := chain[..|chain| - 1], menu[chain[|chain| - 1]].slug;
      var parts := [prefix] + Slugs(menu, front);
      JoinAllIsSlashed(prefix, menu, front);
      assert [prefix] + Slugs(menu, chain) == parts + [last];
      NotEmptyOneMore(parts, last);
      SlashedIsEmpty(parts);
      if NotEmpty(parts) != [] && last != "" {
        SlashedOneMore(NotEmpty(parts), last);
      }
      assert NotEmpty(parts) + [] == NotEmpty(parts) && [] + [last] == [last];
    }
  }

  /** A page's path is its group, its ancestors and its own slug, those that are not empty, with slashes between. */
  lemma PathIsGroupAncestorsOwn(menu: Menu, i: nat)
    requires i < |menu| && menu[i].Entry?
    ensures PathOf(menu, i) == Slashed(NotEmpty([GroupAbove(menu, i)] + Slugs(menu, Ancestors(menu, i))))
  {
    hide PathOf, Ancestors, GroupAbove;
    JoinedIsJoinAll(menu, i);
    JoinAllIsSlashed(GroupAbove(menu, i), menu, Ancestors(menu, i));
  }

  // ---- the stack of parents ------------------------------------------------------------------------------

  /** The last entry above line `i` in its group. */
  function LastEntry(menu: Menu, i: nat): (last: Option<nat>)
    requires i <= |menu|
    ensures last.Some? ==> last.value < i && menu[last.value].Entry?
    ensures last.Some? ==> forall k :: last.value < k < i ==> !menu[k].GroupHeading? && !menu[k].Entry?
  {
    if i == 0 || menu[i - 1].GroupHeading? then None
    else if menu[i - 1].Entry? then Some(i - 1)
    else LastEntry(menu, i - 1)
  }

  /** The nearest less deep entry is the first one up the ancestors of the last entry that is less deep. */
  lemma {:induction false} NearestIsUpTheChain(menu: Menu, i: nat, depth: nat)
    requires i <= |menu|
    ensures NearestAbove(menu, i, depth)
      == if LastEntry(menu, i).None? then None else UpTheChain(menu, LastEntry(menu, i).value, depth)
  {
    if i > 0 && !menu[i - 1].GroupHeading? {
      if menu[i - 1].Entry? {
        if menu[i - 1].depth >= depth {
          SkipDeeper(menu, i - 1, menu[i - 1].depth, depth);
          var parent := ParentOf(menu, i - 1);
          if parent.Some? {
            NearestIsUpTheChain(menu, parent.value + 1, depth);
          }
        }
      } else {
        NearestIsUpTheChain(menu, i - 1, depth);
      }
    }
  }

  /** Looking for something no deeper than what is looked past, one may start at that one's own parent. */
  lemma {:induction false} SkipDeeper(menu: Menu, i: nat, deeper: nat, depth: nat)
    requires i <= |menu| && depth <= deeper
    ensures var parent := NearestAbove(menu, i, deeper);
      NearestAbove(menu, i, depth) == if parent.None? then None else NearestAbove(menu, parent.value + 1, depth)
  {
    if i > 0 && !menu[i - 1].GroupHeading? && !(menu[i - 1].Entry? && menu[i - 1].depth < deeper) {
      SkipDeeper(menu, i - 1, deeper, depth);
    }
  }

  function UpTheChain(menu: Menu, j: nat, depth: nat): Option<nat>
    requires j < |menu| && menu[j].Entry?
  {
    if menu[j].depth < depth then Some(j)
    else
      var parent := ParentOf(menu, j);
      if parent.None? then None else UpTheChain(menu, parent.value, depth)
  }

  type Frame = (nat, string)

  /** An entry and its ancestors as the stack holds them: depth and path. */
  function Frames(menu: Menu, chain: seq<nat>): (frames: seq<Frame>)
    requires forall k :: 0 <= k < |chain| ==> chain[k] < |menu| && menu[chain[k]].Entry?
    ensures |frames| == |chain|
  {
    seq(|chain|, k requires 0 <= k < |chain| => (menu[chain[k]].depth, PathOf(menu, chain[k])))
  }

  function StackOf(menu: Menu, top: Option<nat>): seq<Frame>
    requires top.Some? ==> top.value < |menu| && menu[top.value].Entry?
  {
    if top.None? then [] else Frames(menu, Ancestors(menu, top.value))
  }

  lemma TopOfStack(menu: Menu, j: nat)
    requires j < |menu| && menu[j].Entry?
    ensures var stack := StackOf(menu, Some(j));
      stack == StackOf(menu, ParentOf(menu, j)) + [(menu[j].depth, PathOf(menu, j))]
  {
    hide PathOf;
    var parent := ParentOf(menu, j);
    FramesJoin(menu, if parent.Some? then Ancestors(menu, parent.value) else [], j);
  }

  lemma FramesJoin(menu: Menu, chain: seq<nat>, j: nat)
    requires forall k :: 0 <= k < |chain| ==> chain[k] < |menu| && menu[chain[k]].Entry?
    requires j < |menu| && menu[j].Entry?
    ensures Frames(menu, chain + [j]) == Frames(menu, chain) + [(menu[j].depth, PathOf(menu, j))]
  {
  }

  /** Going up the ancestors, the depths get strictly smaller. */
  lemma {:induction false} DepthsIncrease(menu: Menu, i: nat)
    requires i < |menu| && menu[i].Entry?
    ensures forall a, b :: 0 <= a < b < |Ancestors(menu, i)| ==>
      menu[Ancestors(menu, i)[a]].depth < menu[Ancestors(menu, i)[b]].depth
  {
    var parent := ParentOf(menu, i);
    if parent.Some? {
      DepthsIncrease(menu, parent.value);
      var chain := Ancestors(menu, parent.value);
      forall a | 0 <= a < |chain| ensures menu[chain[a]].depth < menu[i].depth {
        assert chain[|chain| - 1] == parent.value;
      }
    }
  }

  /** Take from the stack every frame that is not less deep. */
  method Pop(menu: Menu, stack: seq<Frame>, depth: nat, ghost i: nat) returns (rest: seq<Frame>)
    requires i < |menu| && menu[i].Entry? && depth == menu[i].depth && stack == StackOf(menu, LastEntry(menu, i))
    ensures rest == StackOf(menu, ParentOf(menu, i))
  {
    rest := stack;
    ghost var top: Option<nat> := LastEntry(menu, i);
    NearestIsUpTheChain(menu, i, depth);
    while rest != [] && rest[|rest| - 1].0 >= depth
      invariant top.Some? ==> top.value < i && menu[top.value].Entry?
      invariant rest == StackOf(menu, top)
      invariant ParentOf(menu, i) == if top.None? then None else UpTheChain(menu, top.value, depth)
      decreases |rest|
    {
      TopOfStack(menu, top.value);
      rest := rest[..|rest| - 1];
      top := ParentOf(menu, top.value);
    }
    if top.Some? {
      TopOfStack(menu, top.value);
    }
  }

  /** The last entry above line `i` that lists a page. */
  function LastListing(menu: Menu, i: nat, page: string): (at: Option<nat>)
    requires i <= |menu|
    ensures at.Some? ==> at.value < i && menu[at.value].Entry? && menu[at.value].page == page
    ensures at.None? ==> forall k :: 0 <= k < i && menu[k].Entry? ==> menu[k].page != page
  {
    if i == 0 then None
    else if menu[i - 1].Entry? && menu[i - 1].page == page then Some(i - 1)
    else LastListing(menu, i - 1, page)
  }

  function PathOfPage(menu: Menu, i: nat, page: string): Option<string>
    requires i <= |menu|
  {
    var at := LastListing(menu, i, page);
    if at.None? then None else Some(PathOf(menu, at.value))
  }

  function Find(paths: map<string, string>, page: string): Option<string> {
    if page in paths then Some(paths[page]) else None
  }

  /** Every page of a space at its place in the tree, and the first page at the space's root. */
  method PagePaths(menu: Menu) returns (paths: map<string, string>)
    requires Pages(menu) != []
    ensures Find(paths, Pages(menu)[0]) == Some("")
    ensures forall page :: page != Pages(menu)[0] ==> Find(paths, page) == PathOfPage(menu, |menu|, page)
  {
    hide PathOf, StackOf, PathOfPage;
    paths := map[];
    var group, parents := "", [];
    StackStartsEmpty(menu);
    var i := 0;
    while i < |menu|
      invariant 0 <= i <= |menu|
      invariant group == GroupAbove(menu, i) && parents == StackOf(menu, LastEntry(menu, i))
      invariant forall page :: Find(paths, page) == PathOfPage(menu, i, page)
    {
      StackStartsEmpty(menu);
      NextListing(menu, i);
      match menu[i] {
        case GroupHeading(slug) =>
          group, parents := slug, [];
        case Entry(depth, page, slug) =>
          parents := Pop(menu, parents, depth, i);
          PathAtTop(menu, i);
          var path := JoinTwo(if parents != [] then parents[|parents| - 1].1 else group, slug);
          assert path == PathOf(menu, i);
          ghost var was := paths;
          paths := paths[page := path];
          OneMorePath(menu, was, paths, i);
          parents := parents + [(depth, path)];
        case _ =>
      }
      i := i + 1;
    }
    paths := paths[Pages(menu)[0] := ""];
  }

  lemma NextListing(menu: Menu, i: nat)
    requires i < |menu|
    ensures menu[i].Entry? ==> PathOfPage(menu, i + 1, menu[i].page) == Some(PathOf(menu, i))
    ensures forall page :: !(menu[i].Entry? && menu[i].page == page) ==>
      PathOfPage(menu, i + 1, page) == PathOfPage(menu, i, page)
  {
  }

  lemma OneMorePath(menu: Menu, paths: map<string, string>, now: map<string, string>, i: nat)
    requires i < |menu| && menu[i].Entry? && forall page :: Find(paths, page) == PathOfPage(menu, i, page)
    requires now == paths[menu[i].page := PathOf(menu, i)]
    ensures forall page :: Find(now, page) == PathOfPage(menu, i + 1, page)
  {
    hide PathOf, PathOfPage;
    NextListing(menu, i);
    forall page ensures Find(now, page) == PathOfPage(menu, i + 1, page) {
      if page != menu[i].page {
        assert Find(now, page) == Find(paths, page);
      }
    }
  }

  lemma StackStartsEmpty(menu: Menu)
    ensures StackOf(menu, None) == [] && forall page :: PathOfPage(menu, 0, page) == None
  {
  }

  lemma PathAtTop(menu: Menu, i: nat)
    requires i < |menu| && menu[i].Entry?
    ensures var rest := StackOf(menu, ParentOf(menu, i));
      PathOf(menu, i) == JoinTwo(if rest != [] then rest[|rest| - 1].1 else GroupAbove(menu, i), menu[i].slug)
    ensures StackOf(menu, Some(i)) == StackOf(menu, ParentOf(menu, i)) + [(menu[i].depth, PathOf(menu, i))]
    ensures LastEntry(menu, i + 1) == Some(i)
  {
    TopOfStack(menu, i);
    var parent := ParentOf(menu, i);
    if parent.Some? {
      TopOfStack(menu, parent.value);
    }
  }
}
