/**
 * The two global regular-expression rewrites of origscript.js, written out
 * as left-to-right scans:
 *   - `s.replace(/<base[^>]*>/gi, "")`  (StripBaseTags)
 *   - `s.replace(/\n{2,}/g, "\n\n")`    (CollapseBlankLines)
 */
module Rewrites {
  import opened Strings

  // ---------------------------------------------------------------------------
  // <base …> removal
  // ---------------------------------------------------------------------------

  /** Index of the first '>' in `s`, or `|s|` when there is none. */
  function IndexOfClose(s: string): (k: nat)
    ensures k <= |s|
    ensures k < |s| ==> s[k] == '>'
    ensures forall i :: 0 <= i < k ==> s[i] != '>'
  {
    if s == [] || s[0] == '>' then 0 else 1 + IndexOfClose(s[1..])
  }

  /** `s` starts with `<base`, letters in any case. */
  predicate OpensBase(s: string) {
    |s| >= 5 && s[0] == '<' && Lower(s[1..5]) == "base"
  }

  /** `/<base[^>]*>/i` matches at the start of `s`. */
  predicate BaseTagAtStart(s: string) {
    OpensBase(s) && IndexOfClose(s[5..]) < |s| - 5
  }

  /** Length of the match of `/<base[^>]*>/i` at the start of `s`. */
  function BaseTagLength(s: string): (n: nat)
    requires BaseTagAtStart(s)
    ensures 6 <= n <= |s| && s[n - 1] == '>'
  {
    5 + IndexOfClose(s[5..]) + 1
  }

  /**
   * One global pass of `replace(/<base[^>]*>/gi, "")`: at each position a
   * complete match is dropped and the scan resumes after it; otherwise one
   * character is copied.
   */
  function StripBaseTags(s: string): (r: string)
    ensures |r| <= |s|
    decreases |s|
  {
    if s == [] then []
    else if BaseTagAtStart(s) then StripBaseTags(s[BaseTagLength(s)..])
    else [s[0]] + StripBaseTags(s[1..])
  }

  /** No position of `s` starts a match of `/<base[^>]*>/i`. */
  predicate NoBaseTag(s: string) {
    forall i :: 0 <= i < |s| ==> !BaseTagAtStart(s[i..])
  }

  /** The pass leaves its input unchanged exactly when the input holds no match. */
  lemma StripBaseTagsFixedIff(s: string)
    ensures StripBaseTags(s) == s <==> NoBaseTag(s)
  {
    if NoBaseTag(s) {
      StripBaseTagsNoMatch(s);
    } else {
      var i :| 0 <= i < |s| && BaseTagAtStart(s[i..]);
      StripBaseTagsShortens(s, i);
    }
  }

  lemma {:induction false} StripBaseTagsNoMatch(s: string)
    requires NoBaseTag(s)
    ensures StripBaseTags(s) == s
    decreases |s|
  {
    if s != [] {
      assert s[0..] == s;
      assert NoBaseTag(s[1..]) by {
        forall i | 0 <= i < |s[1..]|
          ensures !BaseTagAtStart(s[1..][i..])
        {
          assert s[1..][i..] == s[i + 1..];
        }
      }
      StripBaseTagsNoMatch(s[1..]);
      assert s == [s[0]] + s[1..];
    }
  }

  /** A match anywhere in the input makes the output shorter. */
  lemma {:induction false} StripBaseTagsShortens(s: string, i: nat)
    requires i < |s| && BaseTagAtStart(s[i..])
    ensures |StripBaseTags(s)| < |s|
    decreases |s|
  {
    if i == 0 {
      assert s[0..] == s;
    } else if !BaseTagAtStart(s) {
      assert s[1..][i - 1..] == s[i..];
      StripBaseTagsShortens(s[1..], i - 1);
    }
  }

  /** Text without any '<' is left as it is. */
  lemma {:induction false} StripBaseTagsNoOpen(s: string)
    requires '<' !in s
    ensures StripBaseTags(s) == s
    decreases |s|
  {
    if s != [] {
      assert s[0] != '<';
      assert '<' !in s[1..];
      StripBaseTagsNoOpen(s[1..]);
      assert s == [s[0]] + s[1..];
    }
  }

  /** Text without '<' in front of the rest is copied and the scan continues in the rest. */
  lemma {:induction false} StripBaseTagsPrefix(t: string, s: string)
    requires '<' !in t
    ensures StripBaseTags(t + s) == t + StripBaseTags(s)
    decreases |t|
  {
    if t != [] {
      var u := t + s;
      assert u[0] == t[0] && u[1..] == t[1..] + s;
      StripBaseTagsCopy(u);
      assert '<' !in t[1..];
      StripBaseTagsPrefix(t[1..], s);
      assert t == [t[0]] + t[1..];
    } else {
      assert t + s == s;
    }
  }

  /** A character other than '<' opens no match and is copied. */
  lemma StripBaseTagsCopy(u: string)
    requires u != [] && u[0] != '<'
    ensures StripBaseTags(u) == [u[0]] + StripBaseTags(u[1..])
  {
    assert !OpensBase(u);
  }

  /**
   * The pass is a single one: a tag split by an inner tag is joined up
   * again, so the output can still open a `<base …>` tag (with `rest` equal
   * to `se x>`, the output is `<base x>`).
   */
  lemma SplicedBaseTagSurvives(rest: string)
    requires '<' !in rest
    ensures StripBaseTags(['<'] + ("ba" + ("<base>" + rest))) == ['<'] + ("ba" + rest)
    ensures |rest| >= 2 && rest[..2] == "se" ==> OpensBase(['<'] + ("ba" + rest))
  {
    InnerBaseTagStripped(rest);
    StripBaseTagsOpenNoBase("<base>" + rest);
    if |rest| >= 2 && rest[..2] == "se" {
      RejoinedOpensBase(rest);
    }
  }

  /** Helper for SplicedBaseTagSurvives: `<ba` joined to `se…` opens a base tag. */
  lemma RejoinedOpensBase(rest: string)
    requires |rest| >= 2 && rest[..2] == "se"
    ensures OpensBase(['<'] + ("ba" + rest))
  {
    var u := ['<'] + ("ba" + rest);
    assert rest[0] == 's' && rest[1] == 'e' by {
      assert rest[..2][0] == rest[0] && rest[..2][1] == rest[1];
    }
    assert u[1..5] == "base";
    assert Lower("base") == "base";
  }

  /** Helper for SplicedBaseTagSurvives: the inner tag is dropped. */
  lemma InnerBaseTagStripped(rest: string)
    requires '<' !in rest
    ensures StripBaseTags("<base>" + rest) == rest
  {
    var inner := "<base>" + rest;
    assert BaseTagAtStart(inner) && BaseTagLength(inner) == 6 by {
      assert inner[1..5] == "base";
      assert inner[5..][0] == '>';
      assert IndexOfClose(inner[5..]) == 0;
    }
    assert inner[6..] == rest;
    StripBaseTagsNoOpen(rest);
  }

  /** Helper for SplicedBaseTagSurvives: a `<ba` in front of a `<` opens no base tag and is copied. */
  lemma StripBaseTagsOpenNoBase(s: string)
    requires |s| >= 2 && s[0] == '<'
    ensures StripBaseTags(['<'] + ("ba" + s)) == ['<'] + ("ba" + StripBaseTags(s))
  {
    var v := "ba" + s;
    var u := ['<'] + v;
    assert !OpensBase(u) by {
      assert u[1..5][2] == '<';
      assert Lower(u[1..5])[2] == '<';
    }
    assert u[1..] == v;
    StripBaseTagsPrefix("ba", s);
  }

  // ---------------------------------------------------------------------------
  // Blank-line collapse
  // ---------------------------------------------------------------------------

  /** `s` with its leading newlines removed. */
  function DropNewlines(s: string): (r: string)
    ensures |r| <= |s| && (s != [] && s[0] == '\n' ==> |r| < |s|)
    ensures r != [] ==> r[0] != '\n'
  {
    if s != [] && s[0] == '\n' then DropNewlines(s[1..]) else s
  }

  /** `html.replace(/\n{2,}/g, "\n\n")`. */
  function CollapseBlankLines(s: string): (r: string)
    ensures |r| <= |s|
    decreases |s|
  {
    if |s| >= 2 && s[0] == '\n' && s[1] == '\n' then
      assert DropNewlines(s) == DropNewlines(s[1..]) && s[1..][0] == '\n';
      "\n\n" + CollapseBlankLines(DropNewlines(s))
    else if s == [] then []
    else [s[0]] + CollapseBlankLines(s[1..])
  }

  /** No three consecutive newlines. */
  predicate NoTriple(s: string) {
    forall i :: 0 <= i < |s| - 2 ==> !(s[i] == '\n' && s[i + 1] == '\n' && s[i + 2] == '\n')
  }

  /** `n` newline characters. */
  function Newlines(n: nat): (r: string)
    ensures |r| == n && forall i :: 0 <= i < n ==> r[i] == '\n'
  {
    if n == 0 then [] else "\n" + Newlines(n - 1)
  }

  /** `s` with every newline removed. */
  function NonNewlines(s: string): (r: string)
    ensures '\n' !in r
  {
    if s == [] then [] else (if s[0] == '\n' then [] else [s[0]]) + NonNewlines(s[1..])
  }

  /** The first character of the output is that of the input, when it is not a newline. */
  lemma CollapseHead(s: string)
    requires s != [] && s[0] != '\n'
    ensures CollapseBlankLines(s) != [] && CollapseBlankLines(s)[0] == s[0]
  {
  }

  /** The output never holds three newlines in a row. */
  lemma {:induction false} CollapseNoTriple(s: string)
    ensures NoTriple(CollapseBlankLines(s))
    decreases |s|
  {
    var r := CollapseBlankLines(s);
    if |s| >= 2 && s[0] == '\n' && s[1] == '\n' {
      var t := DropNewlines(s);
      CollapseNoTriple(t);
      var rt := CollapseBlankLines(t);
      if t != [] {
        CollapseHead(t);
      } else {
        assert rt == [];
      }
      assert r == "\n\n" + rt;
      forall i | 0 <= i < |r| - 2
        ensures !(r[i] == '\n' && r[i + 1] == '\n' && r[i + 2] == '\n')
      {
        if i >= 2 {
          assert r[i] == rt[i - 2] && r[i + 1] == rt[i - 1] && r[i + 2] == rt[i];
        } else {
          assert r[2] == rt[0] != '\n';
        }
      }
    } else if s != [] {
      CollapseNoTriple(s[1..]);
      var rt := CollapseBlankLines(s[1..]);
      assert r == [s[0]] + rt;
      if s[0] == '\n' && s[1..] != [] {
        CollapseHead(s[1..]);
      }
      forall i | 0 <= i < |r| - 2
        ensures !(r[i] == '\n' && r[i + 1] == '\n' && r[i + 2] == '\n')
      {
        if i >= 1 {
          assert r[i] == rt[i - 1] && r[i + 1] == rt[i] && r[i + 2] == rt[i + 1];
        }
      }
    }
  }

  /** The output equals the input exactly when the input has no run of three or more newlines. */
  lemma {:induction false} CollapseFixedIffNoTriple(s: string)
    ensures CollapseBlankLines(s) == s <==> NoTriple(s)
    decreases |s|
  {
    if NoTriple(s) {
      CollapseFixesNoTriple(s);
    } else {
      CollapseNoTriple(s);
    }
  }

  lemma {:induction false} CollapseFixesNoTriple(s: string)
    requires NoTriple(s)
    ensures CollapseBlankLines(s) == s
    decreases |s|
  {
    if |s| >= 2 && s[0] == '\n' && s[1] == '\n' {
      assert |s| > 2 ==> s[2] != '\n';
      assert DropNewlines(s) == s[2..] by {
        assert DropNewlines(s) == DropNewlines(s[1..]);
        assert DropNewlines(s[1..]) == DropNewlines(s[2..]);
        assert s[1..][1..] == s[2..];
      }
      assert NoTriple(s[2..]) by {
        forall i | 0 <= i < |s[2..]| - 2
          ensures !(s[2..][i] == '\n' && s[2..][i + 1] == '\n' && s[2..][i + 2] == '\n')
        {
          assert s[2..][i] == s[i + 2];
        }
      }
      CollapseFixesNoTriple(s[2..]);
      assert s == "\n\n" + s[2..];
    } else if s != [] {
      assert NoTriple(s[1..]) by {
        forall i | 0 <= i < |s[1..]| - 2
          ensures !(s[1..][i] == '\n' && s[1..][i + 1] == '\n' && s[1..][i + 2] == '\n')
        {
          assert s[1..][i] == s[i + 1];
        }
      }
      CollapseFixesNoTriple(s[1..]);
      assert s == [s[0]] + s[1..];
    }
  }

  /** Collapsing twice is the same as collapsing once. */
  lemma CollapseIdempotent(s: string)
    ensures CollapseBlankLines(CollapseBlankLines(s)) == CollapseBlankLines(s)
  {
    CollapseNoTriple(s);
    CollapseFixesNoTriple(CollapseBlankLines(s));
  }

  /**
   * A maximal run of `n` newlines, followed by the end of the text or by
   * another character, becomes two newlines when `n >= 2` and stays as it
   * is otherwise; the rest is collapsed on its own.
   */
  lemma {:induction false} CollapseRun(n: nat, t: string)
    requires t == [] || t[0] != '\n'
    ensures CollapseBlankLines(Newlines(n) + t)
         == (if n >= 2 then "\n\n" else Newlines(n)) + CollapseBlankLines(t)
  {
    var s := Newlines(n) + t;
    if n >= 2 {
      assert s[0] == '\n' && s[1] == '\n';
      DropNewlinesRun(n, t);
      assert CollapseBlankLines(s) == "\n\n" + CollapseBlankLines(DropNewlines(s));
    } else if n == 1 {
      assert Newlines(1) == "\n";
      assert s[0] == '\n' && s[1..] == t;
      assert !(|s| >= 2 && s[1] == '\n');
      assert CollapseBlankLines(s) == [s[0]] + CollapseBlankLines(s[1..]);
    } else {
      assert s == t;
    }
  }

  lemma {:induction false} DropNewlinesRun(n: nat, t: string)
    requires t == [] || t[0] != '\n'
    ensures DropNewlines(Newlines(n) + t) == t
  {
    if n > 0 {
      var s := Newlines(n) + t;
      assert s[1..] == Newlines(n - 1) + t by {
        assert Newlines(n)[1..] == Newlines(n - 1);
      }
      DropNewlinesRun(n - 1, t);
      assert DropNewlines(s) == DropNewlines(s[1..]);
    } else {
      assert Newlines(n) + t == t;
    }
  }

  /** Every character other than a newline is kept, in order. */
  lemma {:induction false} CollapseKeepsText(s: string)
    ensures NonNewlines(CollapseBlankLines(s)) == NonNewlines(s)
    decreases |s|
  {
    if |s| >= 2 && s[0] == '\n' && s[1] == '\n' {
      var t := DropNewlines(s);
      CollapseKeepsText(t);
      NonNewlinesAppend("\n\n", CollapseBlankLines(t));
      NonNewlinesDrop(s);
    } else if s != [] {
      CollapseKeepsText(s[1..]);
      NonNewlinesAppend([s[0]], CollapseBlankLines(s[1..]));
    }
  }

  lemma {:induction false} NonNewlinesAppend(a: string, b: string)
    ensures NonNewlines(a + b) == NonNewlines(a) + NonNewlines(b)
  {
    if a != [] {
      assert (a + b)[1..] == a[1..] + b;
      NonNewlinesAppend(a[1..], b);
    } else {
      assert a + b == b;
    }
  }

  lemma {:induction false} NonNewlinesDrop(s: string)
    ensures NonNewlines(DropNewlines(s)) == NonNewlines(s)
  {
    if s != [] && s[0] == '\n' {
      NonNewlinesDrop(s[1..]);
    }
  }
}
