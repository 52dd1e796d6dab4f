/**
 * The Edit and Save buttons of `makeBodyEditable`: the closure state
 * (`editor`, `originalHtml`, the buttons' `disabled` flags), the module state
 * (`SNAPSHOT`, `ORIGINAL_BODY_SCRIPTS`), the body markup the handlers read
 * and write, and the messages posted to the parent frame.
 */
module EditSession {
  import opened Wrappers
  import opened Rewrites
  import opened HeadSanitizer
  import opened ParentOrigin
  import opened Reconstruction
  import opened FooterLock

  /**
   * The browser and editor behaviour the handlers call into:
   *   - parseHead: `wrapper.innerHTML = html; wrapper.childNodes`
   *   - bodyScripts: `document.body.querySelectorAll("script")` for a body markup
   *   - loadComponents: `editor.setComponents(html)` then `editor.getWrapper()`
   *   - stripEditorArtifacts: the three `replace` calls on `editor.getHtml()`
   *   - beautifier: `window.html_beautify`, `None` when it did not load
   *   - originOf: `new URL(ref).origin`, `None` when it throws
   */
  datatype Host = Host(
    parseHead: string -> seq<Node>,
    bodyScripts: string -> seq<ScriptElement>,
    loadComponents: string -> Component,
    stripEditorArtifacts: string -> string,
    beautifier: Option<string -> string>,
    originOf: string -> Option<string>)

  /** The message posted to `window.top`, with the target origin it is posted to. */
  datatype SaveMessage = SaveMessage(target: string, source: string, kind: string, path: string, content: string)

  function SaveFileMessage(target: string, content: string): SaveMessage {
    SaveMessage(target, "grapesjs", "GRAPESJS_SAVE_FILE", "/index.html", content)
  }

  /** The mount point the Edit handler puts in place of the page body. */
  const GjsContainer: string := "<div id=\"gjs\" style=\"height:100vh\"></div>"

  /** `fragment`: the editor's export without its own artifacts, beautified. */
  function EditedFragment(host: Host, exported: string): string {
    Beautify(host.beautifier, host.stripEditorArtifacts(exported))
  }

  /** `fullHtml` for a snapshot, an edited fragment and the preserved scripts. */
  function SavedDocument(host: Host, snap: Snapshot, fragment: string, scripts: string): string {
    Reconstruct(snap, Sanitized(host.parseHead(StripBaseTags(snap.headHtml))), fragment, scripts, host.beautifier)
  }

  /**
   * The tail of `btnSave.onclick`: sanitizes the snapshot's head, rebuilds
   * the document and addresses it to the resolved parent origin or the
   * wildcard.
   */
  method BuildSaveMessage(host: Host, snap: Snapshot, fragment: string, scripts: string, frame: Frame)
    returns (message: SaveMessage)
    ensures message == SaveFileMessage(ResolveSaveTarget(frame, host.originOf), SavedDocument(host, snap, fragment, scripts))
    ensures message.target == Wildcard || message.target in AllowedParents
    ensures message.target == Wildcard <==> GetParentOrigin(frame, host.originOf).None?
    ensures NoTriple(message.content)
  {
    var cleanHead := CleanHeadToWhitelist(snap.headHtml, host.parseHead);
    var fullHtml := Reconstruct(snap, cleanHead, fragment, scripts, host.beautifier);
    var target := ResolveSaveTarget(frame, host.originOf);
    message := SaveFileMessage(target, fullHtml);
  }

  class Session {
    const host: Host
    /** `SNAPSHOT`: taken on the first Edit, never replaced. */
    var snapshot: Option<Snapshot>
    /** `ORIGINAL_BODY_SCRIPTS`. */
    var bodyScripts: string
    /** `editor`: the editor's component tree while a session is open. */
    var editor: Option<Component>
    var originalHtml: string
    /** `btnEdit.disabled` and `btnSave.disabled`. */
    var editDisabled: bool
    var saveDisabled: bool
    /** `document.body.innerHTML`, the controls aside. */
    var bodyHtml: string
    /** Every `window.top.postMessage` so far. */
    var sent: seq<SaveMessage>

    /**
     * The buttons mirror whether an editor is open, an open editor implies a
     * snapshot, and every message went to a trusted origin or the wildcard.
     */
    ghost predicate Valid()
      reads this
    {
      && editDisabled == editor.Some?
      && saveDisabled == editor.None?
      && (editor.Some? ==> snapshot.Some?)
      && forall m :: m in sent ==> m.target == Wildcard || m.target in AllowedParents
    }

    /** `makeBodyEditable()`: Edit enabled, Save disabled, no editor, nothing captured. */
    constructor (host: Host, body: string)
      ensures Valid()
      ensures this.host == host && bodyHtml == body
      ensures snapshot.None? && bodyScripts == "" && editor.None? && originalHtml == "" && sent == []
      ensures !editDisabled && saveDisabled
    {
      this.host := host;
      snapshot := None;
      bodyScripts := "";
      editor := None;
      originalHtml := "";
      editDisabled := false;
      saveDisabled := true;
      bodyHtml := body;
      sent := [];
    }

    /** `btnEdit.onclick`, with `doc` the live document at the time of the click. */
    method Edit(doc: Document)
      requires Valid()
      modifies this
      ensures Valid()
      ensures old(editor).Some? ==> unchanged(this)
      ensures old(snapshot).Some? ==> snapshot == old(snapshot)
      ensures old(editor).None? ==>
        && snapshot == (if old(snapshot).Some? then old(snapshot) else Some(TakeSnapshot(doc)))
        && bodyScripts == PreservedScripts(host.bodyScripts(old(bodyHtml)))
        && originalHtml == old(bodyHtml)
        && bodyHtml == GjsContainer
        && editor == Some(LockFooter(host.loadComponents(old(bodyHtml))))
        && editDisabled && !saveDisabled
        && sent == old(sent)
    {
      if editor.Some? {
        return;
      }
      if snapshot.None? {
        snapshot := Some(TakeSnapshot(doc));
      }
      bodyScripts := PreservedScripts(host.bodyScripts(bodyHtml));
      originalHtml := bodyHtml;
      bodyHtml := GjsContainer;
      editor := Some(LockFooter(host.loadComponents(originalHtml)));
      editDisabled := true;
      saveDisabled := false;
    }

    /**
     * `btnSave.onclick`, with `doc` the live document, `frame` what
     * `getParentOrigin` reads and `exported` what `editor.getHtml()` returns.
     */
    method Save(doc: Document, frame: Frame, exported: string)
      requires Valid()
      modifies this
      ensures Valid()
      ensures old(editor).None? ==> unchanged(this)
      ensures snapshot == old(snapshot) && bodyScripts == old(bodyScripts) && originalHtml == old(originalHtml)
      ensures old(editor).Some? ==>
        && editor.None? && !editDisabled && saveDisabled
        && bodyHtml == EditedFragment(host, exported)
        && sent == old(sent) + [SaveFileMessage(
             ResolveSaveTarget(frame, host.originOf),
             SavedDocument(host, old(snapshot).value, EditedFragment(host, exported), old(bodyScripts)))]
    {
      if editor.None? {
        return;
      }
      var fragment := EditedFragment(host, exported);
      var snap := if snapshot.Some? then snapshot.value else TakeSnapshot(doc);
      var message := BuildSaveMessage(host, snap, fragment, bodyScripts, frame);
      Close(fragment, message);
    }

    /** The state changes of a save: the editor closes, the body shows the fragment, the message is sent. */
    method Close(fragment: string, message: SaveMessage)
      requires Valid() && editor.Some?
      requires message.target == Wildcard || message.target in AllowedParents
      modifies this
      ensures Valid()
      ensures snapshot == old(snapshot) && bodyScripts == old(bodyScripts) && originalHtml == old(originalHtml)
      ensures editor.None? && !editDisabled && saveDisabled
      ensures bodyHtml == fragment && sent == old(sent) + [message]
    {
      bodyHtml := fragment;
      editor := None;
      editDisabled := false;
      saveDisabled := true;
      sent := sent + [message];
    }
  }

  /**
   * Two edit/save cycles, with a second Edit and a second Save click that
   * come while they are disabled: two messages are sent, and both rebuild
   * the document from the snapshot of the first Edit, even though the live
   * document differs at later clicks. The second session starts from the
   * first session's fragment.
   */
  method TwoCycles(host: Host, body: string, doc1: Document, doc2: Document, frame: Frame,
                   exported1: string, exported2: string) returns (messages: seq<SaveMessage>)
    ensures |messages| == 2
    ensures messages[0].content
         == SavedDocument(host, TakeSnapshot(doc1), EditedFragment(host, exported1),
                          PreservedScripts(host.bodyScripts(body)))
    ensures messages[1].content
         == SavedDocument(host, TakeSnapshot(doc1), EditedFragment(host, exported2),
                          PreservedScripts(host.bodyScripts(EditedFragment(host, exported1))))
    ensures forall m :: m in messages ==> m.target == Wildcard || m.target in AllowedParents
  {
    var session := new Session(host, body);
    session.Edit(doc1);
    session.Edit(doc2);
    session.Save(doc2, frame, exported1);
    session.Save(doc2, frame, exported2);
    session.Edit(doc2);
    session.Save(doc2, frame, exported2);
    messages := session.sent;
  }
}
