/**
 * `lockFooter`/`lock`: in the editor's component tree, the first component
 * below the wrapper whose id is `ninja-badge` and every component under it
 * have their eleven interaction flags switched off.
 *
 * A component is addressed by its path: the child indices that lead to it
 * from the wrapper.
 */
module FooterLock {
  import opened Wrappers

  /** The eleven properties `lock` sets on a component. */
  datatype Flags = Flags(
    selectable: bool, hoverable: bool, badgable: bool, highlightable: bool,
    draggable: bool, droppable: bool, editable: bool, copyable: bool,
    removable: bool, layerable: bool, stylable: bool)

  /** The value of `cmp.set({...})`: every flag false. */
  const Locked: Flags := Flags(false, false, false, false, false, false, false, false, false, false, false)

  /** A component: its id attribute (`""` when it has none), its flags and its children. */
  datatype Component = Component(id: string, flags: Flags, children: seq<Component>)

  /** The id the selector `#ninja-badge` matches. */
  const BadgeId: string := "ninja-badge"

  type Path = seq<nat>

  /** `p` leads from `c` to one of its components. */
  predicate ValidPath(c: Component, p: Path)
    decreases |p|
  {
    p == [] || (p[0] < |c.children| && ValidPath(c.children[p[0]], p[1..]))
  }

  /** The component at path `p`. */
  function At(c: Component, p: Path): Component
    requires ValidPath(c, p)
    decreases |p|
  {
    if p == [] then c else At(c.children[p[0]], p[1..])
  }

  /** `p` is an ancestor-or-self path of `q`. */
  predicate IsPrefix(p: Path, q: Path) {
    |p| <= |q| && q[..|p|] == p
  }

  /**
   * `q` comes before `p` in document order (pre-order): `q` is a proper
   * ancestor of `p`, or the two part at an index where `q` takes the earlier
   * child.
   */
  predicate Before(q: Path, p: Path) {
    (|q| < |p| && p[..|q|] == q)
    || exists k :: 0 <= k < |q| && k < |p| && q[..k] == p[..k] && q[k] < p[k]
  }

  /**
   * `wrapper.find('#ninja-badge')[0]`, searching the children of `c` from
   * index `i` on and their subtrees, in document order.
   */
  function FindFrom(c: Component, i: nat): (r: Option<Path>)
    ensures r.Some? ==> r.value != [] && r.value[0] >= i && ValidPath(c, r.value) && At(c, r.value).id == BadgeId
    decreases c, |c.children| - i
  {
    if i >= |c.children| then None
    else if c.children[i].id == BadgeId then Some([i])
    else match FindFrom(c.children[i], 0)
      case Some(p) =>
        assert ([i] + p)[1..] == p;
        Some([i] + p)
      case None => FindFrom(c, i + 1)
  }

  /** The first badge below the wrapper, if any. */
  function FindBadge(wrapper: Component): Option<Path> {
    FindFrom(wrapper, 0)
  }

  /** `lock(cmp)` on a whole subtree: every flag off, ids and shape kept. */
  function LockAll(c: Component): (r: Component)
    ensures r.id == c.id && r.flags == Locked && |r.children| == |c.children|
    decreases c
  {
    Component(c.id, Locked, seq(|c.children|, i requires 0 <= i < |c.children| => LockAll(c.children[i])))
  }

  /** `lock` applied to the component at path `p`, the rest of the tree as it was. */
  function LockAt(c: Component, p: Path): (r: Component)
    requires ValidPath(c, p)
    ensures r.id == c.id && |r.children| == |c.children|
    decreases |p|
  {
    if p == [] then LockAll(c)
    else Component(c.id, c.flags, c.children[p[0] := LockAt(c.children[p[0]], p[1..])])
  }

  /** `lockFooter()`. */
  function LockFooter(wrapper: Component): Component {
    match FindBadge(wrapper)
    case None => wrapper
    case Some(p) => LockAt(wrapper, p)
  }

  // ---------------------------------------------------------------------------
  // Properties
  // ---------------------------------------------------------------------------

  /** A search that finds nothing saw no badge among the children from `i` on or below them. */
  lemma {:induction false} FindFromNoneComplete(c: Component, i: nat, q: Path)
    requires FindFrom(c, i).None?
    requires ValidPath(c, q) && q != [] && q[0] >= i
    ensures At(c, q).id != BadgeId
    decreases c, |c.children| - i
  {
    var ch := c.children[i];
    if q[0] == i {
      if q[1..] != [] {
        assert q[1..][0] >= 0;
        FindFromNoneComplete(ch, 0, q[1..]);
      }
    } else {
      FindFromNoneComplete(c, i + 1, q);
    }
  }

  /** No component the search passes before the badge it returns is a badge. */
  lemma {:induction false} FindFromFirst(c: Component, i: nat, q: Path)
    requires FindFrom(c, i).Some?
    requires ValidPath(c, q) && q != [] && q[0] >= i && Before(q, FindFrom(c, i).value)
    ensures At(c, q).id != BadgeId
    decreases c, |c.children| - i
  {
    var p := FindFrom(c, i).value;
    var ch := c.children[i];
    if ch.id == BadgeId {
      // p == [i]: nothing whose first index is at least i comes before it
      assert false;
    } else if FindFrom(ch, 0).Some? {
      var p' := FindFrom(ch, 0).value;
      assert p == [i] + p';
      if q[0] == i {
        if q[1..] == [] {
          assert At(c, q) == ch;
        } else {
          BeforeTail(q, p, i);
          FindFromFirst(ch, 0, q[1..]);
        }
      } else {
        BeforeHead(q, p);
        assert false;
      }
    } else {
      assert p == FindFrom(c, i + 1).value;
      if q[0] == i {
        if q[1..] == [] {
          assert At(c, q) == ch;
        } else {
          FindFromNoneComplete(ch, 0, q[1..]);
        }
      } else {
        FindFromFirst(c, i + 1, q);
      }
    }
  }

  /** Comparing two paths through the same first child compares their tails. */
  lemma BeforeTail(q: Path, p: Path, i: nat)
    requires q != [] && p != [] && q[0] == i && p[0] == i && q[1..] != [] && Before(q, p)
    ensures Before(q[1..], p[1..])
  {
    if |q| < |p| && p[..|q|] == q {
      assert p[1..][..|q[1..]|] == q[1..];
    } else {
      var k :| 0 <= k < |q| && k < |p| && q[..k] == p[..k] && q[k] < p[k];
      assert k > 0;
      assert q[1..][..k - 1] == p[1..][..k - 1];
      assert q[1..][k - 1] < p[1..][k - 1];
    }
  }

  /** A path before `p` starts at or before `p`'s first child. */
  lemma BeforeHead(q: Path, p: Path)
    requires q != [] && p != [] && Before(q, p)
    ensures q[0] <= p[0]
  {
    if |q| < |p| && p[..|q|] == q {
      assert p[0] == q[0];
    } else {
      var k :| 0 <= k < |q| && k < |p| && q[..k] == p[..k] && q[k] < p[k];
      if k > 0 {
        assert q[0] == q[..k][0] == p[..k][0] == p[0];
      }
    }
  }

  /** Locking keeps the shape of the tree and every id. */
  lemma {:induction false} LockAllAt(c: Component, q: Path)
    requires ValidPath(c, q)
    ensures ValidPath(LockAll(c), q) && At(LockAll(c), q).id == At(c, q).id && At(LockAll(c), q).flags == Locked
    decreases |q|
  {
    if q != [] {
      LockAllAt(c.children[q[0]], q[1..]);
    }
  }

  /**
   * `LockAt(c, p)` locks exactly the subtree at `p`: every component below
   * `p` has all flags off, every other keeps its flags, and the shape and
   * ids do not change.
   */
  lemma {:induction false} LockAtSpec(c: Component, p: Path, q: Path)
    requires ValidPath(c, p) && ValidPath(c, q)
    ensures ValidPath(LockAt(c, p), q)
    ensures At(LockAt(c, p), q).id == At(c, q).id
    ensures IsPrefix(p, q) ==> At(LockAt(c, p), q).flags == Locked
    ensures !IsPrefix(p, q) ==> At(LockAt(c, p), q).flags == At(c, q).flags
    decreases |p|
  {
    if p == [] {
      LockAllAt(c, q);
    } else if q == [] {
    } else if q[0] == p[0] {
      LockAtSpec(c.children[p[0]], p[1..], q[1..]);
      assert IsPrefix(p, q) <==> IsPrefix(p[1..], q[1..]);
    } else {
      assert !IsPrefix(p, q);
      assert LockAt(c, p).children[q[0]] == c.children[q[0]];
    }
  }

  /** Paths that are valid before locking are valid after, and conversely. */
  lemma {:induction false} LockAtShape(c: Component, p: Path, q: Path)
    requires ValidPath(c, p)
    ensures ValidPath(LockAt(c, p), q) <==> ValidPath(c, q)
    decreases |q|
  {
    if q != [] && q[0] < |c.children| {
      if p == [] {
        LockAllShape(c, q);
      } else if q[0] == p[0] {
        LockAtShape(c.children[p[0]], p[1..], q[1..]);
      } else {
        assert LockAt(c, p).children[q[0]] == c.children[q[0]];
      }
    }
  }

  lemma {:induction false} LockAllShape(c: Component, q: Path)
    ensures ValidPath(LockAll(c), q) <==> ValidPath(c, q)
    decreases |q|
  {
    if q != [] && q[0] < |c.children| {
      LockAllShape(c.children[q[0]], q[1..]);
    }
  }

  /** Without a badge the tree is left untouched. */
  lemma NoBadgeNoChange(wrapper: Component)
    requires forall q :: ValidPath(wrapper, q) && q != [] ==> At(wrapper, q).id != BadgeId
    ensures LockFooter(wrapper) == wrapper
  {
  }

  /**
   * `lockFooter()` as a whole: the badge found is the first one in document
   * order; the components under it, and only those, end up locked; no path
   * appears or disappears, no id changes.
   */
  lemma LockFooterSpec(wrapper: Component, q: Path)
    requires ValidPath(wrapper, q)
    ensures ValidPath(LockFooter(wrapper), q) && At(LockFooter(wrapper), q).id == At(wrapper, q).id
    ensures FindBadge(wrapper).None? ==> LockFooter(wrapper) == wrapper
    ensures FindBadge(wrapper).None? && q != [] ==> At(wrapper, q).id != BadgeId
    ensures FindBadge(wrapper).Some? ==>
      var p := FindBadge(wrapper).value;
      && At(wrapper, p).id == BadgeId
      && (q != [] && Before(q, p) ==> At(wrapper, q).id != BadgeId)
      && (IsPrefix(p, q) ==> At(LockFooter(wrapper), q).flags == Locked)
      && (!IsPrefix(p, q) ==> At(LockFooter(wrapper), q).flags == At(wrapper, q).flags)
  {
    match FindBadge(wrapper)
    case None =>
      if q != [] {
        FindFromNoneComplete(wrapper, 0, q);
      }
    case Some(p) =>
      LockAtSpec(wrapper, p, q);
      if q != [] && Before(q, p) {
        FindFromFirst(wrapper, 0, q);
      }
  }
}
