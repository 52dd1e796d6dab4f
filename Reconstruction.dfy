/**
 * The snapshot of the original document (`attrs`, `takeSnapshot`), the
 * body scripts preserved when editing starts, and the template that turns
 * the snapshot, the sanitized head, the edited fragment and the preserved
 * scripts into the saved document.
 */
module Reconstruction {
  import opened Wrappers
  import opened Strings
  import opened Rewrites

  /** One attribute of an element, in the order `el.attributes` lists it. */
  datatype Attr = Attr(name: string, value: string)

  /** `${a.name}="${a.value}"`. */
  function RenderAttr(a: Attr): (r: string)
    ensures |r| == |a.name| + |a.value| + 3 && r[|a.name|] == '='
    ensures !IsBlank(r)
  {
    var r := a.name + "=\"" + a.value + "\"";
    assert r[|a.name|] == '=';
    r
  }

  /** The attributes rendered one by one. */
  function RenderAttrs(attrs: seq<Attr>): (rs: seq<string>)
    ensures |rs| == |attrs| && forall i :: 0 <= i < |attrs| ==> rs[i] == RenderAttr(attrs[i])
  {
    if attrs == [] then [] else [RenderAttr(attrs[0])] + RenderAttrs(attrs[1..])
  }

  /**
   * `attrs(el)`: every attribute as `name="value"`, joined by one space;
   * `""` for a missing element. The result is blank exactly when there are
   * no attributes to render.
   */
  function Attrs(el: Option<seq<Attr>>): (r: string)
    ensures IsBlank(r) <==> el.None? || el.value == []
    ensures el.None? || el.value == [] ==> r == ""
    ensures el.Some? && |el.value| == 1 ==> r == RenderAttr(el.value[0])
  {
    match el
    case None => ""
    case Some(attrs) =>
      JoinNotBlank(RenderAttrs(attrs), " ");
      Join(RenderAttrs(attrs), " ")
  }

  /** A join whose first part is not blank is not blank. */
  lemma JoinNotBlank(rs: seq<string>, sep: string)
    ensures rs != [] && !IsBlank(rs[0]) ==> !IsBlank(Join(rs, sep))
  {
    if rs != [] && !IsBlank(rs[0]) {
      var k :| 0 <= k < |rs[0]| && !IsSpace(rs[0][k]);
      if |rs| > 1 {
        assert Join(rs, sep) == rs[0] + sep + Join(rs[1..], sep);
      }
      assert Join(rs, sep)[k] == rs[0][k];
    }
  }

  /** Attributes joined by one space, one more at the end. */
  lemma AttrsSnoc(attrs: seq<Attr>, a: Attr)
    requires attrs != []
    ensures Attrs(Some(attrs + [a])) == Attrs(Some(attrs)) + " " + RenderAttr(a)
  {
    JoinSnoc(RenderAttrs(attrs), RenderAttr(a), " ");
    assert RenderAttrs(attrs + [a]) == RenderAttrs(attrs) + [RenderAttr(a)];
  }

  lemma {:induction false} JoinSnoc(parts: seq<string>, p: string, sep: string)
    requires parts != []
    ensures Join(parts + [p], sep) == Join(parts, sep) + sep + p
  {
    if |parts| == 1 {
      assert (parts + [p])[1..] == [p];
    } else {
      assert (parts + [p])[1..] == parts[1..] + [p];
      JoinSnoc(parts[1..], p, sep);
    }
  }

  // ---------------------------------------------------------------------------
  // Snapshot
  // ---------------------------------------------------------------------------

  /** `SNAPSHOT`: the structural parts of the original document. */
  datatype Snapshot = Snapshot(doctype: string, htmlAttrs: string, headHtml: string, bodyAttrs: string)

  /**
   * What the handlers read from the live document: the serialized doctype
   * (`None` when there is none), the attributes of the root and body
   * elements (`None` when the element is missing) and the head's markup
   * (`None` without a head).
   */
  datatype Document = Document(
    doctype: Option<string>,
    rootAttrs: Option<seq<Attr>>,
    head: Option<string>,
    bodyAttrs: Option<seq<Attr>>)

  const DefaultDoctype: string := "<!DOCTYPE html>"

  /** `takeSnapshot()`. */
  function TakeSnapshot(doc: Document): (s: Snapshot)
    ensures doc.doctype.None? ==> s.doctype == DefaultDoctype
    ensures doc.doctype.Some? ==> s.doctype == doc.doctype.value
    ensures doc.head.None? ==> s.headHtml == ""
    ensures doc.head.Some? ==> s.headHtml == doc.head.value
    ensures s.htmlAttrs == Attrs(doc.rootAttrs) && s.bodyAttrs == Attrs(doc.bodyAttrs)
    ensures IsBlank(s.htmlAttrs) <==> doc.rootAttrs.None? || doc.rootAttrs.value == []
    ensures IsBlank(s.bodyAttrs) <==> doc.bodyAttrs.None? || doc.bodyAttrs.value == []
  {
    Snapshot(
      if doc.doctype.Some? then doc.doctype.value else DefaultDoctype,
      Attrs(doc.rootAttrs),
      if doc.head.Some? then doc.head.value else "",
      Attrs(doc.bodyAttrs))
  }

  // ---------------------------------------------------------------------------
  // Preserved body scripts
  // ---------------------------------------------------------------------------

  /** A `<script>` element of the body: its `src` attribute and its outer HTML. */
  datatype ScriptElement = ScriptElement(src: Option<string>, outerHtml: string)

  /** `/(grapesjs|beautify)/i.test(s.getAttribute("src") || "")`: a script the editor brought. */
  predicate EditorScript(s: ScriptElement) {
    var src := if s.src.Some? then s.src.value else "";
    ContainsIgnoreCase(src, "grapesjs") || ContainsIgnoreCase(src, "beautify")
  }

  /** The `filter` step: the page's own scripts, in document order. */
  function PageScripts(scripts: seq<ScriptElement>): (r: seq<ScriptElement>)
    ensures forall s :: s in r ==> s in scripts && !EditorScript(s)
    ensures forall s :: s in scripts && !EditorScript(s) ==> s in r
    ensures |r| <= |scripts|
  {
    if scripts == [] then []
    else (if EditorScript(scripts[0]) then [] else [scripts[0]]) + PageScripts(scripts[1..])
  }

  /** The filter keeps the relative order of the scripts. */
  lemma {:induction false} PageScriptsAppend(a: seq<ScriptElement>, b: seq<ScriptElement>)
    ensures PageScripts(a + b) == PageScripts(a) + PageScripts(b)
  {
    if a != [] {
      assert (a + b)[1..] == a[1..] + b;
      PageScriptsAppend(a[1..], b);
    } else {
      assert a + b == b;
    }
  }

  /** The outer HTML of each script. */
  function OuterHtmls(scripts: seq<ScriptElement>): (r: seq<string>)
    ensures |r| == |scripts| && forall i :: 0 <= i < |scripts| ==> r[i] == scripts[i].outerHtml
  {
    if scripts == [] then [] else [scripts[0].outerHtml] + OuterHtmls(scripts[1..])
  }

  /** `ORIGINAL_BODY_SCRIPTS`: the page's own scripts' outer HTML joined by newlines. */
  function PreservedScripts(scripts: seq<ScriptElement>): string
  {
    Join(OuterHtmls(PageScripts(scripts)), "\n")
  }

  /** Scripts the editor brought contribute nothing. */
  lemma {:induction false} EditorScriptsNotPreserved(scripts: seq<ScriptElement>)
    requires forall s :: s in scripts ==> EditorScript(s)
    ensures PreservedScripts(scripts) == ""
  {
    if scripts != [] {
      assert scripts[0] in scripts;
      EditorScriptsNotPreserved(scripts[1..]);
      assert PageScripts(scripts) == PageScripts(scripts[1..]);
    }
  }

  // ---------------------------------------------------------------------------
  // The saved document
  // ---------------------------------------------------------------------------

  /** A line break followed by the six spaces of the template literal's indentation. */
  const Indent: string := "\n      "

  /** `bodyAttrs && bodyAttrs.trim() ? <body ${bodyAttrs}> : <body>`. */
  function BodyOpen(bodyAttrs: string): (r: string)
  {
    if !IsBlank(bodyAttrs) then "<body " + bodyAttrs + ">" else "<body>"
  }

  /** The body opens bare exactly when the body had no attributes. */
  lemma BodyOpenBare(doc: Document)
    ensures BodyOpen(TakeSnapshot(doc).bodyAttrs) == "<body>" <==> doc.bodyAttrs.None? || doc.bodyAttrs.value == []
  {
    var a := TakeSnapshot(doc).bodyAttrs;
    if !IsBlank(a) {
      assert ("<body " + a + ">")[5] == ' ';
    }
  }

  /** The template literal of `btnSave.onclick`, before any post-processing. */
  function Template(snap: Snapshot, cleanHead: string, fragment: string, scripts: string): string
  {
    snap.doctype + Indent
    + "<html " + snap.htmlAttrs + ">" + Indent
    + "<head>" + Indent
    + cleanHead + Indent
    + "</head>" + Indent
    + BodyOpen(snap.bodyAttrs) + Indent
    + fragment + Indent
    + scripts + Indent
    + "</body>" + Indent
    + "</html>"
  }

  /** `window.html_beautify || (s => s)`, applied with the fixed options. */
  function Beautify(beautifier: Option<string -> string>, s: string): string
  {
    if beautifier.Some? then beautifier.value(s) else s
  }

  /**
   * `fullHtml`: the template with `<base…>` tags removed in one pass, then
   * beautified, then with blank-line runs collapsed.
   */
  function Reconstruct(snap: Snapshot, cleanHead: string, fragment: string, scripts: string,
                       beautifier: Option<string -> string>): (doc: string)
    ensures NoTriple(doc)
  {
    var raw := StripBaseTags(Template(snap, cleanHead, fragment, scripts));
    CollapseNoTriple(Beautify(beautifier, raw));
    CollapseBlankLines(Beautify(beautifier, raw))
  }

  /**
   * Without a beautifier, the post-processing leaves a template that holds
   * no `<base…>` tag and no run of three newlines exactly as it is; and the
   * result differs from the template whenever the template holds a base tag.
   */
  lemma ReconstructPlain(snap: Snapshot, cleanHead: string, fragment: string, scripts: string)
    ensures var t := Template(snap, cleanHead, fragment, scripts);
      && (NoBaseTag(t) && NoTriple(t) ==> Reconstruct(snap, cleanHead, fragment, scripts, None) == t)
      && (!NoBaseTag(t) ==> Reconstruct(snap, cleanHead, fragment, scripts, None) != t)
  {
    var t := Template(snap, cleanHead, fragment, scripts);
    var raw := StripBaseTags(t);
    StripBaseTagsFixedIff(t);
    if NoBaseTag(t) {
      CollapseFixedIffNoTriple(t);
    } else {
      assert |raw| < |t| by {
        var i :| 0 <= i < |t| && BaseTagAtStart(t[i..]);
        StripBaseTagsShortens(t, i);
      }
    }
  }

}
