/**
 * The slug rules of the blog app, written once and parameterised by the
 * separator and by whether leading and trailing separators are stripped:
 *   title.toLowerCase().replace(/[^a-z0-9]+/g, sep)            (untrimmed)
 *   ... .replace(/^sep+|sep+$/g, '')                           (trimmed)
 */
module Slug {
  import opened Strings

  /** The characters `[a-z0-9]` that a slug keeps. */
  predicate IsSlugChar(c: char) { IsLowerAscii(c) || IsDigit(c) }

  /** A usable separator: outside `[a-z0-9]` and not changed by lower-casing. */
  predicate SepOk(sep: char) { !IsSlugChar(sep) && !IsUpperAscii(sep) }

  /** Every character is in `[a-z0-9]` or is the separator. */
  predicate OnlySlugAndSep(s: string, sep: char) {
    forall i :: 0 <= i < |s| ==> IsSlugChar(s[i]) || s[i] == sep
  }

  /**
   * The ends of an untrimmed slug `r` of the lower-cased `s`: empty only
   * when `s` is, and a separator at either end exactly when `s` has a
   * character outside `[a-z0-9]` there.
   */
  predicate UntrimmedEnds(s: string, r: string, sep: char) {
    && (r == [] <==> s == [])
    && (s != [] && r != [] ==>
          && (r[0] == sep <==> !IsSlugChar(s[0]))
          && (r[|r| - 1] == sep <==> !IsSlugChar(s[|s| - 1])))
  }

  /** Every character is in `[a-z0-9]`. */
  predicate AllSlug(s: string) {
    forall i :: 0 <= i < |s| ==> IsSlugChar(s[i])
  }

  /** No character is in `[a-z0-9]`. */
  predicate NoSlug(s: string) {
    forall i :: 0 <= i < |s| ==> !IsSlugChar(s[i])
  }

  /** The separator never appears twice in a row. */
  ghost predicate NoDoubleSep(s: string, sep: char) {
    forall i, j :: 0 <= i < j < |s| && j == i + 1 ==> !(s[i] == sep && s[j] == sep)
  }

  /** The `[a-z0-9]` characters of `s`, in order. */
  function Keep(s: string): string {
    if s == [] then []
    else if IsSlugChar(s[0]) then [s[0]] + Keep(s[1..])
    else Keep(s[1..])
  }

  /** The length of the maximal leading run of characters outside `[a-z0-9]`. */
  function RunLength(s: string): (n: nat)
    ensures n <= |s| && NoSlug(s[..n])
    ensures n == |s| || IsSlugChar(s[n])
  {
    if s != [] && !IsSlugChar(s[0]) then
      var m := RunLength(s[1..]);
      PrefixStep(s, s[1..], m);
      1 + m
    else 0
  }

  /** Drops the maximal leading run of characters outside `[a-z0-9]`. */
  function SkipRun(s: string): (r: string)
    ensures |r| <= |s| && r == s[|s| - |r|..]
    ensures NoSlug(s[..|s| - |r|])
    ensures r == [] || IsSlugChar(r[0])
    ensures Keep(r) == Keep(s)
  {
    var n := RunLength(s);
    assert s == s[..n] + s[n..];
    KeepAppend(s[..n], s[n..]);
    KeepNone(s[..n]);
    s[n..]
  }

  /** A character outside `[a-z0-9]` in front of a prefix of the tail without such characters. */
  lemma PrefixStep(s: string, t: string, k: nat)
    requires s != [] && !IsSlugChar(s[0]) && t == s[1..] && k <= |t| && NoSlug(t[..k])
    ensures NoSlug(s[..k + 1])
  {
    var p := s[..k + 1];
    forall i | 0 <= i < |p|
      ensures !IsSlugChar(p[i])
    {
      if i > 0 {
        assert p[i] == t[..k][i - 1];
      }
    }
  }

  /**
   * `s.replace(/[^a-z0-9]+/g, sep)`: every maximal run of characters
   * outside `[a-z0-9]` becomes one separator.
   */
  function ReplaceRuns(s: string, sep: char): (r: string)
    requires SepOk(sep)
    ensures r == [] <==> s == []
    ensures s != [] ==> (r[0] == sep <==> !IsSlugChar(s[0]))
    decreases |s|
  {
    if s == [] then []
    else if IsSlugChar(s[0]) then [s[0]] + ReplaceRuns(s[1..], sep)
    else [sep] + ReplaceRuns(SkipRun(s[1..]), sep)
  }

  /**
   * The replacement uses only `[a-z0-9]` and the separator, never doubles
   * the separator, and keeps the `[a-z0-9]` characters of its input in order.
   */
  lemma {:induction false} ReplaceRunsShape(s: string, sep: char)
    requires SepOk(sep)
    ensures OnlySlugAndSep(ReplaceRuns(s, sep), sep)
    ensures NoDoubleSep(ReplaceRuns(s, sep), sep)
    ensures Keep(ReplaceRuns(s, sep)) == Keep(s)
    decreases |s|
  {
    if s != [] {
      var r := ReplaceRuns(s, sep);
      var u := if IsSlugChar(s[0]) then s[1..] else SkipRun(s[1..]);
      var rest := ReplaceRuns(u, sep);
      ReplaceRunsShape(u, sep);
      assert r[1..] == rest;
    }
  }

  /** `s.replace(/^sep+/, '')`. */
  function DropLeading(s: string, sep: char): (r: string)
    ensures |r| <= |s| && r == s[|s| - |r|..]
    ensures r == [] || r[0] != sep
    ensures forall i :: 0 <= i < |s| - |r| ==> s[i] == sep
  {
    if s != [] && s[0] == sep then DropLeading(s[1..], sep) else s
  }

  /** `s.replace(/sep+$/, '')`. */
  function DropTrailing(s: string, sep: char): (r: string)
    ensures r <= s
    ensures r == [] || r[|r| - 1] != sep
    ensures forall i :: |r| <= i < |s| ==> s[i] == sep
  {
    if s != [] && s[|s| - 1] == sep then DropTrailing(s[..|s| - 1], sep) else s
  }

  /** `s.replace(/^sep+|sep+$/g, '')`: strips the separators at both ends. */
  function TrimSep(s: string, sep: char): (r: string)
    ensures r == [] || (r[0] != sep && r[|r| - 1] != sep)
  {
    var d := DropLeading(s, sep);
    var r := DropTrailing(d, sep);
    assert r != [] ==> r[0] == d[0] && d != [];
    r
  }

  /** The replacement on an already lower-cased string, stripped at both ends when `trim` holds. */
  function Collapse(s: string, sep: char, trim: bool): string
    requires SepOk(sep)
  {
    var r := ReplaceRuns(s, sep);
    if trim then TrimSep(r, sep) else r
  }

  /** The slug of `title` with separator `sep`, stripped at both ends when `trim` holds. */
  function Slugify(title: string, sep: char, trim: bool): string
    requires SepOk(sep)
  {
    Collapse(Lower(title), sep, trim)
  }

  // ------------------------------------------------------------------ lemmas

  lemma {:induction false} KeepAppend(a: string, b: string)
    ensures Keep(a + b) == Keep(a) + Keep(b)
  {
    if a == [] {
      assert a + b == b;
    } else {
      assert (a + b)[0] == a[0] && (a + b)[1..] == a[1..] + b;
      KeepAppend(a[1..], b);
      if IsSlugChar(a[0]) {
        calc {
          Keep(a + b);
          [a[0]] + Keep(a[1..] + b);
          [a[0]] + (Keep(a[1..]) + Keep(b));
          ([a[0]] + Keep(a[1..])) + Keep(b);
          Keep(a) + Keep(b);
        }
      }
    }
  }

  lemma {:induction false} KeepNone(s: string)
    requires NoSlug(s)
    ensures Keep(s) == []
  {
    if s != [] {
      KeepNone(s[1..]);
    }
  }

  lemma KeepDropLeading(s: string, sep: char)
    requires !IsSlugChar(sep)
    ensures Keep(DropLeading(s, sep)) == Keep(s)
  {
    var d := DropLeading(s, sep);
    var p := s[..|s| - |d|];
    assert s == p + d;
    KeepAppend(p, d);
    KeepNone(p);
  }

  lemma KeepDropTrailing(s: string, sep: char)
    requires !IsSlugChar(sep)
    ensures Keep(DropTrailing(s, sep)) == Keep(s)
  {
    var r := DropTrailing(s, sep);
    var q := s[|r|..];
    assert s == r + q;
    KeepAppend(r, q);
    KeepNone(q);
  }

  /** Stripping separators at the ends loses no `[a-z0-9]` character. */
  lemma KeepTrimSep(s: string, sep: char)
    requires !IsSlugChar(sep)
    ensures Keep(TrimSep(s, sep)) == Keep(s)
  {
    KeepDropLeading(s, sep);
    KeepDropTrailing(DropLeading(s, sep), sep);
  }

  /** Stripping the ends keeps the alphabet and the absence of doubled separators. */
  lemma TrimSepClean(s: string, sep: char)
    requires OnlySlugAndSep(s, sep) && NoDoubleSep(s, sep)
    ensures OnlySlugAndSep(TrimSep(s, sep), sep) && NoDoubleSep(TrimSep(s, sep), sep)
  {
    var lo, hi := TrimSepSlice(s, sep);
    SliceClean(s, sep, lo, hi);
  }

  /** Stripping the ends leaves a contiguous piece of the input. */
  lemma TrimSepSlice(s: string, sep: char) returns (lo: nat, hi: nat)
    ensures lo <= hi <= |s| && TrimSep(s, sep) == s[lo..hi]
  {
    var d := DropLeading(s, sep);
    var r := DropTrailing(d, sep);
    lo, hi := |s| - |d|, |s| - |d| + |r|;
    assert r == d[..|r|];
  }

  /** A contiguous piece of a clean string is clean. */
  lemma SliceClean(s: string, sep: char, lo: nat, hi: nat)
    requires lo <= hi <= |s|
    requires OnlySlugAndSep(s, sep) && NoDoubleSep(s, sep)
    ensures OnlySlugAndSep(s[lo..hi], sep) && NoDoubleSep(s[lo..hi], sep)
  {
    var t := s[lo..hi];
    forall i | 0 <= i < |t| ensures IsSlugChar(t[i]) || t[i] == sep {
      assert t[i] == s[lo + i];
    }
    forall i, j | 0 <= i < j < |t| && j == i + 1 ensures !(t[i] == sep && t[j] == sep) {
      assert t[i] == s[lo + i] && t[j] == s[lo + j];
    }
  }

  /** Lower-casing does not change a string made of `[a-z0-9]` and separators. */
  lemma {:induction false} LowerClean(s: string, sep: char)
    requires SepOk(sep) && OnlySlugAndSep(s, sep)
    ensures Lower(s) == s
  {
    if s != [] {
      LowerClean(s[1..], sep);
    }
  }

  /** A string already in slug form is its own replacement. */
  lemma {:induction false} ReplaceRunsClean(s: string, sep: char)
    requires SepOk(sep) && OnlySlugAndSep(s, sep) && NoDoubleSep(s, sep)
    ensures ReplaceRuns(s, sep) == s
    decreases |s|
  {
    if s != [] {
      ReplaceRunsClean(s[1..], sep);
      if !IsSlugChar(s[0]) {
        assert s[1..] == [] || IsSlugChar(s[1]);
        assert SkipRun(s[1..]) == s[1..];
      }
    }
  }

  /** Stripping the ends of a string that has no separator at either end changes nothing. */
  lemma TrimSepNoop(s: string, sep: char)
    requires s == [] || (s[0] != sep && s[|s| - 1] != sep)
    ensures TrimSep(s, sep) == s
  {
  }

  /**
   * A slug uses only `[a-z0-9]` and the separator, never doubles the
   * separator, and its `[a-z0-9]` characters are exactly those of the
   * lower-cased title, in order; a trimmed slug has no separator at either
   * end, and an untrimmed one is empty only for an empty title and starts
   * (ends) with the separator exactly when the lower-cased title starts
   * (ends) outside `[a-z0-9]`.
   */
  lemma SlugifySpec(title: string, sep: char, trim: bool)
    requires SepOk(sep)
    ensures OnlySlugAndSep(Slugify(title, sep, trim), sep)
    ensures NoDoubleSep(Slugify(title, sep, trim), sep)
    ensures Keep(Slugify(title, sep, trim)) == Keep(Lower(title))
    ensures trim ==> Slugify(title, sep, trim) == [] ||
                     (Slugify(title, sep, trim)[0] != sep &&
                      Slugify(title, sep, trim)[|Slugify(title, sep, trim)| - 1] != sep)
    ensures !trim ==> UntrimmedEnds(Lower(title), Slugify(title, sep, trim), sep)
  {
    if trim {
      SlugifyTrimmed(title, sep);
    } else {
      SlugifyUntrimmed(title, sep);
    }
  }

  /** `SlugifySpec` for the trimmed rule. */
  lemma SlugifyTrimmed(title: string, sep: char)
    requires SepOk(sep)
    ensures var r := Slugify(title, sep, true);
      && OnlySlugAndSep(r, sep) && NoDoubleSep(r, sep) && Keep(r) == Keep(Lower(title))
      && (r == [] || (r[0] != sep && r[|r| - 1] != sep))
  {
    var u := ReplaceRuns(Lower(title), sep);
    ReplaceRunsShape(Lower(title), sep);
    TrimSepClean(u, sep);
    KeepTrimSep(u, sep);
  }

  /** `SlugifySpec` for the untrimmed rule. */
  lemma SlugifyUntrimmed(title: string, sep: char)
    requires SepOk(sep)
    ensures var r := Slugify(title, sep, false);
      && OnlySlugAndSep(r, sep) && NoDoubleSep(r, sep) && Keep(r) == Keep(Lower(title))
      && UntrimmedEnds(Lower(title), r, sep)
  {
    var l := Lower(title);
    ReplaceRunsShape(l, sep);
    if l != [] {
      ReplaceRunsLast(l, sep);
    }
  }

  /** Every slug rule is idempotent: the slug of a slug is that slug. */
  lemma SlugifyIdempotent(title: string, sep: char, trim: bool)
    requires SepOk(sep)
    ensures Slugify(Slugify(title, sep, trim), sep, trim) == Slugify(title, sep, trim)
  {
    var s := Slugify(title, sep, trim);
    SlugifySpec(title, sep, trim);
    LowerClean(s, sep);
    ReplaceRunsClean(s, sep);
    if trim {
      TrimSepNoop(s, sep);
    }
  }

  /** The trimmed slug is the untrimmed one with its end separators stripped. */
  lemma TrimmedIsStrippedUntrimmed(title: string, sep: char)
    requires SepOk(sep)
    ensures Slugify(title, sep, true) == TrimSep(Slugify(title, sep, false), sep)
  {
  }

  // ------------------------------------------------------- the run rule

  /** A run outside `[a-z0-9]` in front of the rest of the input is skipped whole. */
  lemma {:induction false} SkipGap(g: string, t: string)
    requires NoSlug(g) && (t == [] || IsSlugChar(t[0]))
    ensures SkipRun(g + t) == t
  {
    if g == [] {
      assert g + t == t;
    } else {
      assert (g + t)[0] == g[0] && (g + t)[1..] == g[1..] + t;
      SkipGap(g[1..], t);
    }
  }

  /** A word of `[a-z0-9]` characters passes through the replacement unchanged. */
  lemma {:induction false} ReplaceRunsWord(w: string, t: string, sep: char)
    requires SepOk(sep) && AllSlug(w)
    ensures ReplaceRuns(w + t, sep) == w + ReplaceRuns(t, sep)
  {
    if w == [] {
      assert w + t == t;
    } else {
      ReplaceRunsWord(w[1..], t, sep);
      ReplaceRunsCons(w[0], w[1..] + t, sep);
      assert w + t == [w[0]] + (w[1..] + t);
      assert w == [w[0]] + w[1..];
    }
  }

  /** One step of the replacement on a character of `[a-z0-9]`. */
  lemma ReplaceRunsCons(c: char, s: string, sep: char)
    requires SepOk(sep) && IsSlugChar(c)
    ensures ReplaceRuns([c] + s, sep) == [c] + ReplaceRuns(s, sep)
  {
    assert ([c] + s)[0] == c && ([c] + s)[1..] == s;
  }

  /** A maximal run outside `[a-z0-9]` becomes exactly one separator. */
  lemma ReplaceRunsGap(g: string, t: string, sep: char)
    requires SepOk(sep) && g != [] && NoSlug(g) && (t == [] || IsSlugChar(t[0]))
    ensures ReplaceRuns(g + t, sep) == [sep] + ReplaceRuns(t, sep)
  {
    assert (g + t)[0] == g[0] && (g + t)[1..] == g[1..] + t;
    SkipGap(g[1..], t);
  }

  /**
   * The rule of the replacement: a word of `[a-z0-9]` characters followed
   * by a maximal run of other characters becomes the word and exactly one
   * separator, in place, and the replacement goes on with the rest.
   */
  lemma ReplaceRunsRun(w: string, g: string, t: string, sep: char)
    requires SepOk(sep) && AllSlug(w) && g != [] && NoSlug(g) && (t == [] || IsSlugChar(t[0]))
    ensures ReplaceRuns(w + g + t, sep) == w + [sep] + ReplaceRuns(t, sep)
  {
    assert w + g + t == w + (g + t);
    ReplaceRunsWord(w, g + t, sep);
    ReplaceRunsGap(g, t, sep);
  }

  /** The replacement ends with the separator exactly when the input ends outside `[a-z0-9]`. */
  lemma {:induction false} ReplaceRunsLast(s: string, sep: char)
    requires SepOk(sep) && s != []
    ensures ReplaceRuns(s, sep)[|ReplaceRuns(s, sep)| - 1] == sep <==> !IsSlugChar(s[|s| - 1])
    decreases |s|
  {
    var r := ReplaceRuns(s, sep);
    var t := s[1..];
    if IsSlugChar(s[0]) {
      var rest := ReplaceRuns(t, sep);
      assert r == [s[0]] + rest;
      if t != [] {
        ReplaceRunsLast(t, sep);
        assert r[|r| - 1] == rest[|rest| - 1];
        assert t[|t| - 1] == s[|s| - 1];
      }
    } else {
      var u := SkipRun(t);
      var rest := ReplaceRuns(u, sep);
      assert r == [sep] + rest;
      if u != [] {
        ReplaceRunsLast(u, sep);
        assert r[|r| - 1] == rest[|rest| - 1];
        assert u[|u| - 1] == t[|t| - 1] == s[|s| - 1];
      } else if t != [] {
        assert t[..|t|][|t| - 1] == s[|s| - 1];
      }
    }
  }

  /** A word of `[a-z0-9]` characters is its own slug, stripped or not. */
  lemma CollapseWord(w: string, sep: char, trim: bool)
    requires SepOk(sep) && AllSlug(w)
    ensures Collapse(w, sep, trim) == w
  {
    ReplaceRunsWord(w, [], sep);
    assert w + [] == w;
  }

  /** Without a separator at its front, stripping both ends only strips the end. */
  lemma TrimSepTail(x: string, sep: char)
    requires x == [] || x[0] != sep
    ensures TrimSep(x, sep) == DropTrailing(x, sep)
  {
  }

  /** Stripping the end of a concatenation strips into its front only when its back is all separators. */
  lemma {:induction false} DropTrailingAppend(a: string, b: string, sep: char)
    ensures DropTrailing(a + b, sep) ==
            if DropTrailing(b, sep) == [] then DropTrailing(a, sep) else a + DropTrailing(b, sep)
    decreases |b|
  {
    if b == [] {
      assert a + b == a;
    } else if b[|b| - 1] == sep {
      assert (a + b)[..|a + b| - 1] == a + b[..|b| - 1];
      DropTrailingAppend(a, b[..|b| - 1], sep);
    }
  }

  /** Stripped: a leading run outside `[a-z0-9]` leaves no trace. */
  lemma CollapseLeadingGap(g: string, t: string, sep: char)
    requires SepOk(sep) && NoSlug(g) && (t == [] || IsSlugChar(t[0]))
    ensures Collapse(g + t, sep, true) == Collapse(t, sep, true)
  {
    if g == [] {
      assert g + t == t;
    } else {
      var x := ReplaceRuns(t, sep);
      ReplaceRunsGap(g, t, sep);
      assert ([sep] + x)[1..] == x;
      TrimSepTail(x, sep);
    }
  }

  /**
   * Stripped: a word followed by a maximal run outside `[a-z0-9]` becomes
   * the word, then one separator only when the slug of the rest is not empty.
   */
  lemma CollapseTrimmedRun(w: string, g: string, t: string, sep: char)
    requires SepOk(sep) && w != [] && AllSlug(w) && g != [] && NoSlug(g) && (t == [] || IsSlugChar(t[0]))
    ensures Collapse(w + g + t, sep, true) ==
            if Collapse(t, sep, true) == [] then w else w + [sep] + Collapse(t, sep, true)
  {
    var x := ReplaceRuns(t, sep);
    ReplaceRunsRun(w, g, t, sep);
    TrimSepTail(x, sep);
    TrimSepTail(w + [sep] + x, sep);
    DropTrailingAppend(w + [sep], x, sep);
    assert (w + [sep])[..|w + [sep]| - 1] == w;
  }
}
