/**
 * `cleanHeadToWhitelist`: reduces the head markup captured in the snapshot
 * to allow-listed elements whose `src`/`href` carry none of the editor's own
 * asset markers, de-duplicated by outer HTML, plus trimmed non-blank text.
 *
 * The browser's parse of the markup (`wrapper.innerHTML = …; childNodes`) is
 * a parameter; the model starts from the node list it yields.
 */
module HeadSanitizer {
  import opened Wrappers
  import opened Strings
  import opened Rewrites

  /**
   * A child node of the parse wrapper. `tag` is the DOM's `tagName`
   * (upper case for HTML elements); `src` and `href` are `getAttribute`
   * results (`None` for a missing attribute). `Other` stands for comments and
   * every node type the loop ignores.
   */
  datatype Node =
    | Element(tag: string, src: Option<string>, href: Option<string>, outerHtml: string)
    | Text(value: string)
    | Other

  /** `ALLOW`. */
  const Allow: set<string> := {"META", "TITLE", "LINK", "STYLE", "SCRIPT"}

  /** `getAttribute(name) || ""`. */
  function AttrOrEmpty(a: Option<string>): string {
    if a.Some? then a.value else ""
  }

  /** `/(grapesjs|min\.css|beautify)/i.test(s)`. */
  predicate Denylisted(s: string) {
    ContainsIgnoreCase(s, "grapesjs") || ContainsIgnoreCase(s, "min.css") || ContainsIgnoreCase(s, "beautify")
  }

  /** An element that passes the allow-list and the denylist: only these reach the `seen` set. */
  predicate Admissible(n: Node) {
    n.Element? && n.tag in Allow && !Denylisted(AttrOrEmpty(n.src) + AttrOrEmpty(n.href))
  }

  /**
   * Whether node `i` contributes a piece: an admissible element whose outer
   * HTML no earlier admissible element has, or a text node that is not blank.
   */
  predicate KeepAt(nodes: seq<Node>, i: int)
    requires 0 <= i < |nodes|
  {
    match nodes[i]
    case Element(_, _, _, html) =>
      Admissible(nodes[i]) && forall j :: 0 <= j < i ==> !(Admissible(nodes[j]) && nodes[j].outerHtml == html)
    case Text(v) => !IsBlank(v)
    case Other => false
  }

  /** What a kept node contributes: its outer HTML, or its trimmed text. */
  function PieceOf(n: Node): string {
    match n
    case Element(_, _, _, html) => html
    case Text(v) => Trim(v)
    case Other => ""
  }

  /** The indices below `n` of the nodes that are kept: exactly those, in increasing order. */
  function KeptIndices(nodes: seq<Node>, n: nat): (ks: seq<nat>)
    requires n <= |nodes|
    ensures forall k :: 0 <= k < |ks| ==> ks[k] < n && KeepAt(nodes, ks[k])
    ensures forall k1, k2 :: 0 <= k1 < k2 < |ks| ==> ks[k1] < ks[k2]
    ensures forall i :: 0 <= i < n && KeepAt(nodes, i) ==> i in ks
  {
    if n == 0 then []
    else KeptIndices(nodes, n - 1) + (if KeepAt(nodes, n - 1) then [n - 1] else [])
  }

  /** The pieces of the nodes at indices `ks`, in that order. */
  function PiecesAt(nodes: seq<Node>, ks: seq<nat>): (ps: seq<string>)
    requires forall k :: 0 <= k < |ks| ==> ks[k] < |nodes|
    ensures |ps| == |ks| && forall k :: 0 <= k < |ks| ==> ps[k] == PieceOf(nodes[ks[k]])
  {
    if ks == [] then []
    else
      var init := ks[..|ks| - 1];
      assert forall k :: 0 <= k < |init| ==> init[k] == ks[k];
      PiecesAt(nodes, init) + [PieceOf(nodes[ks[|ks| - 1]])]
  }

  /** The `cleaned` array after the loop has seen the first `n` nodes. */
  function PiecesBelow(nodes: seq<Node>, n: nat): seq<string>
    requires n <= |nodes|
  {
    PiecesAt(nodes, KeptIndices(nodes, n))
  }

  /** The `seen` set after the loop has seen the first `n` nodes. */
  function SeenBelow(nodes: seq<Node>, n: nat): set<string>
    requires n <= |nodes|
  {
    set j | 0 <= j < n && Admissible(nodes[j]) :: nodes[j].outerHtml
  }

  /** The sanitized head: the kept pieces joined by newlines. */
  function Sanitized(nodes: seq<Node>): string {
    Join(PiecesBelow(nodes, |nodes|), "\n")
  }

  /**
   * `cleanHeadToWhitelist(rawHeadHTML)`: removes `<base…>` tags from the raw
   * markup, parses it with `parse`, and walks the nodes pushing kept pieces
   * into `cleaned` and admitted outer HTML into `seen`.
   */
  method CleanHeadToWhitelist(rawHeadHtml: string, parse: string -> seq<Node>) returns (html: string)
    ensures html == Sanitized(parse(StripBaseTags(rawHeadHtml)))
  {
    var nodes := parse(StripBaseTags(rawHeadHtml));
    var cleaned: seq<string> := [];
    var seen: set<string> := {};
    var i := 0;
    assert SeenBelow(nodes, 0) == {};
    while i < |nodes|
      invariant 0 <= i <= |nodes|
      invariant cleaned == PiecesBelow(nodes, i)
      invariant seen == SeenBelow(nodes, i)
    {
      var node := nodes[i];
      match node {
        case Element(tag, src, href, outer) =>
          var admitted := tag in Allow && !Denylisted(AttrOrEmpty(src) + AttrOrEmpty(href));
          ElementStep(nodes, i, seen);
          if admitted && outer !in seen {
            cleaned := cleaned + [outer];
            seen := seen + {outer};
          }
        case Text(v) =>
          TextStep(nodes, i);
          if !IsBlank(v) {
            cleaned := cleaned + [Trim(v)];
          }
        case Other =>
          LoopStep(nodes, i);
      }
      i := i + 1;
    }
    html := Join(cleaned, "\n");
  }

  /** One iteration of the loop in CleanHeadToWhitelist, stated on the specification functions. */
  lemma LoopStep(nodes: seq<Node>, i: nat)
    requires i < |nodes|
    ensures nodes[i].Element? ==> (KeepAt(nodes, i) <==> Admissible(nodes[i]) && nodes[i].outerHtml !in SeenBelow(nodes, i))
    ensures PiecesBelow(nodes, i + 1)
         == PiecesBelow(nodes, i) + (if KeepAt(nodes, i) then [PieceOf(nodes[i])] else [])
    ensures SeenBelow(nodes, i + 1)
         == SeenBelow(nodes, i) + (if Admissible(nodes[i]) then {nodes[i].outerHtml} else {})
  {
    if nodes[i].Element? {
      KeepAtSeen(nodes, i);
    }
    PiecesStep(nodes, i);
    SeenStep(nodes, i);
  }

  /** LoopStep for an element node, in the terms the loop tests. */
  lemma ElementStep(nodes: seq<Node>, i: nat, seen: set<string>)
    requires i < |nodes| && nodes[i].Element? && seen == SeenBelow(nodes, i)
    ensures var n := nodes[i];
      var admitted := n.tag in Allow && !Denylisted(AttrOrEmpty(n.src) + AttrOrEmpty(n.href));
      if admitted && n.outerHtml !in seen then
        PiecesBelow(nodes, i + 1) == PiecesBelow(nodes, i) + [n.outerHtml] && SeenBelow(nodes, i + 1) == seen + {n.outerHtml}
      else
        PiecesBelow(nodes, i + 1) == PiecesBelow(nodes, i) && SeenBelow(nodes, i + 1) == seen
  {
    LoopStep(nodes, i);
    if Admissible(nodes[i]) && nodes[i].outerHtml in seen {
      assert seen + {nodes[i].outerHtml} == seen;
    }
  }

  /** LoopStep for a text node, in the terms the loop tests. */
  lemma TextStep(nodes: seq<Node>, i: nat)
    requires i < |nodes| && nodes[i].Text?
    ensures SeenBelow(nodes, i + 1) == SeenBelow(nodes, i)
    ensures PiecesBelow(nodes, i + 1)
         == PiecesBelow(nodes, i) + (if !IsBlank(nodes[i].value) then [Trim(nodes[i].value)] else [])
  {
    LoopStep(nodes, i);
  }

  lemma KeepAtSeen(nodes: seq<Node>, i: nat)
    requires i < |nodes| && nodes[i].Element?
    ensures KeepAt(nodes, i) <==> Admissible(nodes[i]) && nodes[i].outerHtml !in SeenBelow(nodes, i)
  {
    if Admissible(nodes[i]) && nodes[i].outerHtml in SeenBelow(nodes, i) {
      var j :| 0 <= j < i && Admissible(nodes[j]) && nodes[j].outerHtml == nodes[i].outerHtml;
    }
  }

  lemma PiecesStep(nodes: seq<Node>, i: nat)
    requires i < |nodes|
    ensures PiecesBelow(nodes, i + 1)
         == PiecesBelow(nodes, i) + (if KeepAt(nodes, i) then [PieceOf(nodes[i])] else [])
  {
    var ks := KeptIndices(nodes, i);
    if KeepAt(nodes, i) {
      assert KeptIndices(nodes, i + 1) == ks + [i];
      assert (ks + [i])[..|ks|] == ks;
    } else {
      assert KeptIndices(nodes, i + 1) == ks;
    }
  }

  lemma SeenStep(nodes: seq<Node>, i: nat)
    requires i < |nodes|
    ensures SeenBelow(nodes, i + 1)
         == SeenBelow(nodes, i) + (if Admissible(nodes[i]) then {nodes[i].outerHtml} else {})
  {
  }

  // ---------------------------------------------------------------------------
  // Properties of the kept pieces
  // ---------------------------------------------------------------------------

  /** Every kept element is allow-listed and clear of the denylist; every kept text is not blank. */
  lemma KeptNodesPassFilters(nodes: seq<Node>, k: nat)
    requires k < |KeptIndices(nodes, |nodes|)|
    ensures var n := nodes[KeptIndices(nodes, |nodes|)[k]];
      && !n.Other?
      && (n.Element? ==> n.tag in Allow && !Denylisted(AttrOrEmpty(n.src) + AttrOrEmpty(n.href)))
      && (n.Text? ==> !IsBlank(n.value))
  {
  }

  /** Kept elements are pairwise distinct by outer HTML. */
  lemma KeptElementsDistinct(nodes: seq<Node>, k1: nat, k2: nat)
    requires k1 < k2 < |KeptIndices(nodes, |nodes|)|
    requires nodes[KeptIndices(nodes, |nodes|)[k1]].Element? && nodes[KeptIndices(nodes, |nodes|)[k2]].Element?
    ensures PiecesBelow(nodes, |nodes|)[k1] != PiecesBelow(nodes, |nodes|)[k2]
  {
    var ks := KeptIndices(nodes, |nodes|);
    assert KeepAt(nodes, ks[k1]) && KeepAt(nodes, ks[k2]);
  }

  /**
   * Every admissible element is represented in the output: the first
   * admissible element with the same outer HTML is kept.
   */
  lemma {:induction false} FirstOccurrenceKept(nodes: seq<Node>, i: nat)
    requires i < |nodes| && Admissible(nodes[i])
    ensures exists j :: 0 <= j <= i && j in KeptIndices(nodes, |nodes|) && Admissible(nodes[j]) && nodes[j].outerHtml == nodes[i].outerHtml
    decreases i
  {
    if KeepAt(nodes, i) {
      assert i in KeptIndices(nodes, |nodes|);
    } else {
      var j :| 0 <= j < i && Admissible(nodes[j]) && nodes[j].outerHtml == nodes[i].outerHtml;
      FirstOccurrenceKept(nodes, j);
    }
  }

  /** A kept text contributes its trimmed value: non-empty, with no white space at either end. */
  lemma KeptTextTrimmed(nodes: seq<Node>, k: nat)
    requires k < |KeptIndices(nodes, |nodes|)|
    requires nodes[KeptIndices(nodes, |nodes|)[k]].Text?
    ensures var p := PiecesBelow(nodes, |nodes|)[k];
      p == Trim(nodes[KeptIndices(nodes, |nodes|)[k]].value) && p != [] && !IsSpace(p[0]) && !IsSpace(p[|p| - 1])
  {
  }

  /** Text is not de-duplicated: two equal non-blank text nodes are both kept. */
  lemma TextNotDeduplicated(nodes: seq<Node>, i: nat, j: nat)
    requires i < j < |nodes| && nodes[i].Text? && nodes[i] == nodes[j] && !IsBlank(nodes[i].value)
    ensures i in KeptIndices(nodes, |nodes|) && j in KeptIndices(nodes, |nodes|)
  {
  }

  /**
   * The meta tag survives; the editor's script and a `.min.css` stylesheet
   * are both dropped by the denylist.
   */
  lemma MinCssStylesheetDropped()
    ensures Sanitized([
      Element("META", None, None, "<meta charset=\"utf-8\">"),
      Element("SCRIPT", Some("grapesjs.min.js"), None, "<script src=\"grapesjs.min.js\"></script>"),
      Element("LINK", None, Some("theme.min.css"), "<link rel=\"stylesheet\" href=\"theme.min.css\">")
    ]) == "<meta charset=\"utf-8\">"
  {
    var nodes := [
      Element("META", None, None, "<meta charset=\"utf-8\">"),
      Element("SCRIPT", Some("grapesjs.min.js"), None, "<script src=\"grapesjs.min.js\"></script>"),
      Element("LINK", None, Some("theme.min.css"), "<link rel=\"stylesheet\" href=\"theme.min.css\">")
    ];
    assert Denylisted("grapesjs.min.js") by {
      assert Lower("grapesjs.min.js")[..8] == "grapesjs";
    }
    assert Denylisted("theme.min.css") by {
      ContainsAfter(Lower("theme.min.css"), "min.css", 6);
    }
    assert AttrOrEmpty(Some("grapesjs.min.js")) + AttrOrEmpty(None) == "grapesjs.min.js";
    assert AttrOrEmpty(None) + AttrOrEmpty(Some("theme.min.css")) == "theme.min.css";
    assert !Denylisted("") by {
      assert !Contains(Lower(""), "grapesjs");
    }
    assert KeepAt(nodes, 0) && !KeepAt(nodes, 1) && !KeepAt(nodes, 2);
    assert KeptIndices(nodes, 3) == [0];
  }

  /** `pat` found at offset `k` of `s`. */
  lemma {:induction false} ContainsAfter(s: string, pat: string, k: nat)
    requires k + |pat| <= |s| && s[k..k + |pat|] == pat
    ensures Contains(s, pat)
    decreases k
  {
    if k > 0 {
      assert s[1..][k - 1..k - 1 + |pat|] == s[k..k + |pat|];
      ContainsAfter(s[1..], pat, k - 1);
    }
  }
}
