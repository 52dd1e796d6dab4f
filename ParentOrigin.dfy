/**
 * Resolving the trusted parent origin (`getParentOrigin`) and the target
 * origin of the save message (`origin || "*"`).
 */
module ParentOrigin {
  import opened Wrappers

  /** `ALLOWED_PARENTS`: the origins trusted to receive the saved document. */
  const AllowedParents: set<string> := {"https://super.myninja.ai"}

  /** The wildcard target used when no trusted origin is known. */
  const Wildcard: string := "*"

  /**
   * What `getParentOrigin` reads from the browser: whether the frame is the
   * top-level window and `document.referrer` (`""` when there is none).
   */
  datatype Frame = Frame(isTopLevel: bool, referrer: string)

  /**
   * `getParentOrigin()`. `originOf(ref)` is `new URL(ref).origin`, `None`
   * when the constructor throws; every failure ends in `null` (`None`).
   */
  function GetParentOrigin(frame: Frame, originOf: string -> Option<string>): (r: Option<string>)
    ensures r.Some? ==> r.value in AllowedParents
    ensures r.Some? ==> r == originOf(frame.referrer)
    ensures frame.isTopLevel ==> r.None?
    ensures frame.referrer == "" ==> r.None?
    ensures originOf(frame.referrer).None? ==> r.None?
    ensures (&& !frame.isTopLevel && frame.referrer != ""
             && originOf(frame.referrer).Some? && originOf(frame.referrer).value in AllowedParents)
            ==> r.Some?
  {
    if frame.isTopLevel then None
    else if frame.referrer == "" then None
    else match originOf(frame.referrer)
      case None => None
      case Some(origin) => if origin in AllowedParents then Some(origin) else None
  }

  /** `const target = origin || "*"`: a resolved origin that is the empty string is falsy too. */
  function SaveTarget(origin: Option<string>): string
  {
    if origin.Some? && origin.value != "" then origin.value else Wildcard
  }

  /**
   * The target of the save message is a trusted parent origin, or the
   * wildcard exactly when no trusted origin could be resolved.
   */
  function ResolveSaveTarget(frame: Frame, originOf: string -> Option<string>): (target: string)
    ensures target == Wildcard || target in AllowedParents
    ensures target == Wildcard <==> GetParentOrigin(frame, originOf).None?
    ensures target != Wildcard ==> Some(target) == originOf(frame.referrer) && !frame.isTopLevel
  {
    SaveTarget(GetParentOrigin(frame, originOf))
  }

  /** An embedded frame whose referrer has the trusted origin sends to that origin. */
  lemma TrustedReferrerIsTarget(originOf: string -> Option<string>)
    requires originOf("https://super.myninja.ai/page") == Some("https://super.myninja.ai")
    ensures ResolveSaveTarget(Frame(false, "https://super.myninja.ai/page"), originOf) == "https://super.myninja.ai"
  {
  }

  /** A frame whose referrer has any origin outside the allow-list sends to the wildcard. */
  lemma UntrustedReferrerIsWildcard(frame: Frame, originOf: string -> Option<string>)
    requires originOf(frame.referrer).Some? && originOf(frame.referrer).value !in AllowedParents
    ensures ResolveSaveTarget(frame, originOf) == Wildcard
  {
  }

  /** For example, an embedded frame whose referrer is on `https://evil.example`. */
  lemma EvilReferrerIsWildcard(originOf: string -> Option<string>)
    requires originOf("https://evil.example/") == Some("https://evil.example")
    ensures ResolveSaveTarget(Frame(false, "https://evil.example/"), originOf) == Wildcard
  {
    assert "https://evil.example" !in AllowedParents;
    UntrustedReferrerIsWildcard(Frame(false, "https://evil.example/"), originOf);
  }
}
