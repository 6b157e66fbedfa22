/** The documentation site rewrites each page's links, and leaves code alone. */
module LinkRewriting {
  import opened Common

  /** A line's text, as one pattern finds code spans and links in it. */
  datatype Token = Text(text: string) | Code(text: string) | Link(shown: string, target: string, title: string)

  /** A line that starts with a fence: its mark, how often, and whether there is nothing but marks on it. */
  datatype Line = Fence(mark: char, length: nat, bare: bool, text: string) | Words(tokens: seq<Token>)

  /** What a path on this page leads to; the URLs are those of a page in another space and of a file on GitHub. */
  datatype Destination =
    | LeavesTheRepository
    | NoFile
    | Asset
    | SameSpace
    | OtherSpace(url: string)
    | OnGitHub(url: string)
  datatype Broken = Leaves(target: string) | Missing(target: string)

  // ---- fences --------------------------------------------------------------------------------------------------

  datatype Opening = Opening(mark: char, length: nat)

  /** A fence of the same mark, at least as long, with nothing else on its line. */
  predicate Closes(line: Line, opening: Opening) {
    line.Fence? && line.mark == opening.mark && line.length >= opening.length && line.bare
  }

  function NextFence(open: Option<Opening>, line: Line): Option<Opening> {
    if !line.Fence? then open
    else if open.None? then Some(Opening(line.mark, line.length))
    else if Closes(line, open.value) then None else open
  }

  /** The fence that is open above line `i`. */
  function OpenAbove(lines: seq<Line>, i: nat): Option<Opening>
    requires i <= |lines|
  {
    if i == 0 then None else NextFence(OpenAbove(lines, i - 1), lines[i - 1])
  }

  /**
   A line is inside a block when a fence outside any block opens it above, and no fence between is of its mark, as
   long and alone on its line.
   */
  lemma {:induction false} InsideABlock(lines: seq<Line>, i: nat, mark: char, length: nat)
    requires i <= |lines|
    ensures OpenAbove(lines, i) == Some(Opening(mark, length)) <==>
      exists k :: 0 <= k < i && IsOpenedBy(lines, k, mark, length) && NoneEnds(lines, k, i, mark, length)
  {
    if i > 0 {
      InsideABlock(lines, i - 1, mark, length);
      if OpenAbove(lines, i) == Some(Opening(mark, length)) && OpenAbove(lines, i - 1).None? {
        assert IsOpenedBy(lines, i - 1, mark, length);
      }
      if k :| 0 <= k < i && IsOpenedBy(lines, k, mark, length) && NoneEnds(lines, k, i, mark, length) {
        assert k < i - 1 ==> OpenAbove(lines, i - 1) == Some(Opening(mark, length));
      }
    }
  }

  /** A fence outside any block. */
  ghost predicate IsOpenedBy(lines: seq<Line>, k: nat, mark: char, length: nat)
    requires k < |lines|
  {
    lines[k].Fence? && lines[k].mark == mark && lines[k].length == length && OpenAbove(lines, k).None?
  }

  ghost predicate NoneEnds(lines: seq<Line>, k: nat, i: nat, mark: char, length: nat)
    requires i <= |lines|
  {
    forall j :: k < j < i ==> !Ends(lines[j], mark, length)
  }

  ghost predicate Ends(line: Line, mark: char, length: nat) {
    match line
    case Fence(otherMark, otherLength, bare, _) => bare && otherMark == mark && length <= otherLength
    case Words(_) => false
  }

  // ---- links ---------------------------------------------------------------------------------------------------

  predicate StartsWith(text: string, prefix: string) {
    prefix <= text
  }

  predicate IsNotAPath(target: string) {
    || StartsWith(target, "http://")
    || StartsWith(target, "https://")
    || StartsWith(target, "mailto:")
    || StartsWith(target, "#")
  }

  /** What is before the first hash, and what is after it. */
  function SplitAnchor(target: string): (string, string) {
    if target == "" then ("", "")
    else if target[0] == '#' then ("", target[1..])
    else
      var (path, anchor) := SplitAnchor(target[1..]);
      ([target[0]] + path, anchor)
  }

  function WithAnchor(url: string, anchor: string): string {
    if anchor == "" then url else url + "#" + anchor
  }

  function Rewrite(token: Token, lookup: string -> Destination): Result<Token, Broken> {
    if !token.Link? || IsNotAPath(token.target) then Ok(token)
    else
      var (path, anchor) := SplitAnchor(token.target);
      match lookup(path)
      case LeavesTheRepository => Err(Leaves(token.target))
      case NoFile => Err(Missing(token.target))
      case Asset => Ok(token)
      case SameSpace => Ok(token)
      case OtherSpace(url) => Ok(token.(target := WithAnchor(url, anchor)))
      case OnGitHub(url) => Ok(token.(target := WithAnchor(url, anchor)))
  }

  /** What is in front of the first hash, and from it on. */
  ghost predicate IsCutAtHash(target: string, path: string, anchor: string) {
    target == path + anchor && '#' !in path && (anchor != "" ==> anchor[0] == '#')
  }

  ghost predicate NamesNoFile(target: string) {
    "http://" <= target || "https://" <= target || "mailto:" <= target || "#" <= target
  }

  /** A link to another space or to GitHub gets that URL, with the anchor it had unless that was a hash alone. */
  ghost predicate IsRelinked(token: Token, path: string, anchor: string, after: Token, lookup: string -> Destination) {
    match lookup(path)
    case LeavesTheRepository => false
    case NoFile => false
    case Asset => after == token
    case SameSpace => after == token
    case OtherSpace(url) => token.Link? && after == token.(target := url + if |anchor| > 1 then anchor else "")
    case OnGitHub(url) => token.Link? && after == token.(target := url + if |anchor| > 1 then anchor else "")
  }

  lemma {:induction false} SplitsAtHash(target: string, path: string, anchor: string)
    requires IsCutAtHash(target, path, anchor)
    ensures SplitAnchor(target) == (path, if anchor == "" then "" else anchor[1..])
  {
    if path == "" {
      assert target == anchor;
    } else {
      assert target[0] == path[0] && path[0] in path && target[1..] == path[1..] + anchor;
      assert '#' !in path[1..] by {
        assert forall c :: c in path[1..] ==> c in path;
      }
      SplitsAtHash(target[1..], path[1..], anchor);
      assert path == [path[0]] + path[1..];
    }
  }

  lemma {:induction false} CutAtHash(target: string) returns (path: string, anchor: string)
    ensures IsCutAtHash(target, path, anchor)
  {
    if target == "" || target[0] == '#' {
      path, anchor := "", target;
    } else {
      path, anchor := CutAtHash(target[1..]);
      path := [target[0]] + path;
    }
  }

  lemma AnchorIs(url: string, anchor: string)
    requires anchor != "" ==> anchor[0] == '#'
    ensures WithAnchor(url, if anchor == "" then "" else anchor[1..]) == url + if |anchor| > 1 then anchor else ""
  {
    if |anchor| > 1 {
      assert anchor == "#" + anchor[1..];
    } else {
      assert url + "" == url;
    }
  }

  /** What becomes of text, code and links; and which link is broken, and how. */
  lemma RewriteIs(token: Token, lookup: string -> Destination) returns (path: string, anchor: string)
    ensures !token.Link? || NamesNoFile(token.target) ==> Rewrite(token, lookup) == Ok(token)
    ensures token.Link? ==> IsCutAtHash(token.target, path, anchor)
    ensures token.Link? && !NamesNoFile(token.target) ==>
      && (forall after :: Rewrite(token, lookup) == Ok(after) <==> IsRelinked(token, path, anchor, after, lookup))
      && (Rewrite(token, lookup) == Err(Leaves(token.target)) <==> lookup(path) == LeavesTheRepository)
      && (Rewrite(token, lookup) == Err(Missing(token.target)) <==> lookup(path) == NoFile)
  {
    path, anchor := "", "";
    if token.Link? {
      path, anchor := CutAtHash(token.target);
      SplitsAtHash(token.target, path, anchor);
      hide SplitAnchor, WithAnchor;
      match lookup(path)
      case OtherSpace(url) => AnchorIs(url, anchor);
      case OnGitHub(url) => AnchorIs(url, anchor);
      case _ =>
    }
  }

  /** Every link a line keeps or gets. */
  ghost predicate IsRewritten(before: seq<Token>, after: seq<Token>, lookup: string -> Destination) {
    |before| == |after| && forall k :: 0 <= k < |before| ==> Rewrite(before[k], lookup) == Ok(after[k])
  }

  predicate IsBroken(tokens: seq<Token>, lookup: string -> Destination, broken: Broken) {
    exists k :: 0 <= k < |tokens| && Rewrite(tokens[k], lookup) == Err(broken)
  }

  method RewriteLine(tokens: seq<Token>, lookup: string -> Destination) returns (result: Result<seq<Token>, Broken>)
    ensures result.Ok? ==> IsRewritten(tokens, result.value, lookup)
    ensures result.Err? ==> IsBroken(tokens, lookup, result.error)
  {
    var done: seq<Token> := [];
    var k := 0;
    while k < |tokens|
      invariant 0 <= k <= |tokens| && IsRewritten(tokens[..k], done, lookup)
    {
      var token := Rewrite(tokens[k], lookup);
      if token.Err? {
        return Err(token.error);
      }
      done := done + [token.value];
      k := k + 1;
    }
    assert tokens[..k] == tokens;
    return Ok(done);
  }

  /** Fences and what is between them are kept; every other line's links are rewritten. */
  ghost predicate IsRewrittenLine(lines: seq<Line>, i: nat, after: Line, lookup: string -> Destination)
    requires i < |lines|
  {
    if lines[i].Fence? || OpenAbove(lines, i).Some? then after == lines[i]
    else after.Words? && IsRewritten(lines[i].tokens, after.tokens, lookup)
  }

  ghost predicate IsRewrittenPage(lines: seq<Line>, after: seq<Line>, lookup: string -> Destination) {
    |after| == |lines| && forall i :: 0 <= i < |lines| ==> IsRewrittenLine(lines, i, after[i], lookup)
  }

  /** A link outside code that leads nowhere. */
  ghost predicate IsBrokenAt(lines: seq<Line>, i: nat, lookup: string -> Destination, broken: Broken)
    requires i < |lines|
  {
    lines[i].Words? && OpenAbove(lines, i).None? && IsBroken(lines[i].tokens, lookup, broken)
  }

  method RewriteLinks(lines: seq<Line>, lookup: string -> Destination) returns (result: Result<seq<Line>, Broken>)
    ensures result.Ok? ==> IsRewrittenPage(lines, result.value, lookup)
    ensures result.Err? ==> exists i :: 0 <= i < |lines| && IsBrokenAt(lines, i, lookup, result.error)
  {
    hide Rewrite, Closes;
    var done: seq<Line> := [];
    var fence: Option<Opening> := None;
    var i := 0;
    while i < |lines|
      invariant 0 <= i <= |lines| && |done| == i && fence == OpenAbove(lines, i)
      invariant forall k :: 0 <= k < i ==> IsRewrittenLine(lines, k, done[k], lookup)
    {
      var line := lines[i];
      if line.Fence? {
        if fence.None? {
          fence := Some(Opening(line.mark, line.length));
        } else if Closes(line, fence.value) {
          fence := None;
        }
        done := done + [line];
      } else if fence.Some? {
        done := done + [line];
      } else {
        var words := RewriteLine(line.tokens, lookup);
        if words.Err? {
          assert IsBrokenAt(lines, i, lookup, words.error);
          return Err(words.error);
        }
        done := done + [Words(words.value)];
      }
      i := i + 1;
    }
    return Ok(done);
  }

  // ---- rewriting twice -----------------------------------------------------------------------------------------

  /** Every URL a link can be given is absolute. */
  ghost predicate GivesAbsolute(lookup: string -> Destination) {
    forall path :: lookup(path).OtherSpace? || lookup(path).OnGitHub? ==> IsNotAPath(lookup(path).url)
  }

  lemma TokenTwice(token: Token, after: Token, lookup: string -> Destination)
    requires GivesAbsolute(lookup) && Rewrite(token, lookup) == Ok(after)
    ensures Rewrite(after, lookup) == Ok(after)
  {
  }

  lemma {:induction false} SameFences(lines: seq<Line>, after: seq<Line>, lookup: string -> Destination, i: nat)
    requires IsRewrittenPage(lines, after, lookup) && i <= |lines|
    ensures OpenAbove(after, i) == OpenAbove(lines, i)
  {
    if i > 0 {
      SameFences(lines, after, lookup, i - 1);
      assert IsRewrittenLine(lines, i - 1, after[i - 1], lookup);
    }
  }

  /** A rewritten page rewrites to itself, where every URL given is absolute. */
  lemma RewritingTwiceIsOnce(lines: seq<Line>, after: seq<Line>, lookup: string -> Destination)
    requires GivesAbsolute(lookup) && IsRewrittenPage(lines, after, lookup)
    ensures forall again :: IsRewrittenPage(after, again, lookup) <==> again == after
  {
    hide Rewrite, GivesAbsolute, OpenAbove;
    forall i | 0 <= i < |after| ensures IsRewrittenLine(after, i, after[i], lookup) {
      SameFences(lines, after, lookup, i);
      LineTwice(lines, after, lookup, i);
    }
    forall again | IsRewrittenPage(after, again, lookup) ensures again == after {
      forall i | 0 <= i < |after| ensures again[i] == after[i] {
        assert IsRewrittenLine(after, i, again[i], lookup) && IsRewrittenLine(after, i, after[i], lookup);
      }
    }
  }

  lemma LineTwice(lines: seq<Line>, after: seq<Line>, lookup: string -> Destination, i: nat)
    requires GivesAbsolute(lookup) && IsRewrittenPage(lines, after, lookup) && i < |lines|
    requires OpenAbove(after, i) == OpenAbove(lines, i)
    ensures IsRewrittenLine(after, i, after[i], lookup)
  {
    hide Rewrite, GivesAbsolute, OpenAbove;
    assert IsRewrittenLine(lines, i, after[i], lookup);
    if !(lines[i].Fence? || OpenAbove(lines, i).Some?) {
      var tokens, words := lines[i].tokens, after[i].tokens;
      forall k | 0 <= k < |tokens| ensures Rewrite(words[k], lookup) == Ok(words[k]) {
        TokenTwice(tokens[k], words[k], lookup);
      }
    }
  }
}
