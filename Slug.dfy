/** `_slugify` of cofounder/api/server.js (lines 25-34), a chain of five
    regular-expression replacements after lower-casing, and the choice of a
    new project's id in `POST /api/projects/new` (lines 197-217). Characters
    are handled as ASCII: letters outside A-Z are not lower-cased and white
    space outside ASCII is not recognised. */
module Slug {
  import opened Values
  import opened Text

  // ---------------------------------------------------------------------------
  // The replacement chain
  // ---------------------------------------------------------------------------

  function Lower(c: char): char {
    if 'A' <= c <= 'Z' then (c as int - 'A' as int + 'a' as int) as char else c
  }

  /** `toLowerCase()` */
  function ToLower(s: string): (r: string)
    ensures |r| == |s|
    ensures forall i :: 0 <= i < |r| ==> r[i] == Lower(s[i])
  {
    if |s| == 0 then "" else [Lower(s[0])] + ToLower(s[1..])
  }

  /** `replace(/\s+/g, "-")`: every run of white space becomes one dash. */
  function DashSpaces(s: string): (r: string)
    ensures forall c :: c in r ==> c in s || c == '-'
    decreases |s|
  {
    if |s| == 0 then ""
    else if IsJsSpace(s[0]) then "-" + DashSpaces(TrimStart(s[1..]))
    else [s[0]] + DashSpaces(s[1..])
  }

  /** No white space is left, and every character other than white space
      and the dash is kept as often as it occurs. */
  lemma {:induction false} DashSpacesKeeps(s: string)
    ensures forall c :: c in DashSpaces(s) ==> !IsJsSpace(c)
    ensures forall c :: c != '-' && !IsJsSpace(c) ==> multiset(DashSpaces(s))[c] == multiset(s)[c]
    decreases |s|
  {
    if |s| > 0 {
      assert s == [s[0]] + s[1..];
      if IsJsSpace(s[0]) {
        TrimStartKeeps(s[1..]);
        DashSpacesKeeps(TrimStart(s[1..]));
      } else {
        DashSpacesKeeps(s[1..]);
      }
    }
  }

  /** Trimming leading white space keeps every other character as often as it occurs. */
  lemma {:induction false} TrimStartKeeps(s: string)
    ensures forall c :: !IsJsSpace(c) ==> multiset(TrimStart(s))[c] == multiset(s)[c]
  {
    if |s| > 0 && IsJsSpace(s[0]) {
      TrimStartKeeps(s[1..]);
      assert s == [s[0]] + s[1..];
    }
  }

  /** The characters of `\w` and the dash. */
  predicate IsWordOrDash(c: char) {
    'a' <= c <= 'z' || 'A' <= c <= 'Z' || '0' <= c <= '9' || c == '_' || c == '-'
  }

  /** `replace(/[^\w\-]+/g, "")`: every other character is removed. */
  function KeepWords(s: string): (r: string)
    ensures forall i :: 0 <= i < |r| ==> IsWordOrDash(r[i])
    ensures forall c :: c in r ==> c in s
  {
    if |s| == 0 then ""
    else if IsWordOrDash(s[0]) then [s[0]] + KeepWords(s[1..])
    else KeepWords(s[1..])
  }

  /** Each word character and dash is kept as often as it occurs. */
  lemma {:induction false} KeepWordsKeeps(s: string)
    ensures forall c :: IsWordOrDash(c) ==> multiset(KeepWords(s))[c] == multiset(s)[c]
  {
    if |s| > 0 {
      assert s == [s[0]] + s[1..];
      KeepWordsKeeps(s[1..]);
    }
  }

  /** Removal works piecewise, so the characters kept stay in their order. */
  lemma {:induction false} KeepWordsAppend(a: string, b: string)
    ensures KeepWords(a + b) == KeepWords(a) + KeepWords(b)
  {
    if |a| > 0 {
      KeepWordsAppend(a[1..], b);
      assert (a + b)[1..] == a[1..] + b;
    } else {
      assert a + b == b;
    }
  }

  /** The string without its leading dashes: only dashes are dropped. */
  function DropDashes(s: string): (r: string)
    ensures |r| <= |s| && r == s[|s| - |r|..]
    ensures |r| > 0 ==> r[0] != '-'
    ensures forall i :: 0 <= i < |s| - |r| ==> s[i] == '-'
  {
    if |s| > 0 && s[0] == '-' then
      var r := DropDashes(s[1..]);
      assert s == [s[0]] + s[1..];
      r
    else s
  }

  /** `replace(/\-\-+/g, "-")`: every run of dashes becomes one dash (a run
      of one stays as it is). */
  function CollapseDashes(s: string): (r: string)
    ensures forall c :: c in r ==> c in s
    decreases |s|
  {
    if |s| == 0 then ""
    else if s[0] == '-' then "-" + CollapseDashes(DropDashes(s[1..]))
    else [s[0]] + CollapseDashes(s[1..])
  }

  /** Collapsing keeps every character other than the dash as often as it occurs. */
  lemma {:induction false} CollapseKeeps(s: string)
    ensures forall c :: c != '-' ==> multiset(CollapseDashes(s))[c] == multiset(s)[c]
    decreases |s|
  {
    if |s| > 0 {
      assert s == [s[0]] + s[1..];
      if s[0] == '-' {
        DropDashesKeeps(s[1..]);
        CollapseKeeps(DropDashes(s[1..]));
      } else {
        CollapseKeeps(s[1..]);
      }
    }
  }

  /** Dropping leading dashes keeps every other character as often as it occurs. */
  lemma {:induction false} DropDashesKeeps(s: string)
    ensures forall c :: c != '-' ==> multiset(DropDashes(s))[c] == multiset(s)[c]
  {
    if |s| > 0 && s[0] == '-' {
      DropDashesKeeps(s[1..]);
      assert s == [s[0]] + s[1..];
    }
  }

  /** `replace(/-+$/, "")`: only dashes are dropped. */
  function DropTrailingDashes(s: string): (r: string)
    ensures |r| <= |s| && r == s[..|r|]
    ensures |r| > 0 ==> r[|r| - 1] != '-'
    ensures forall i :: |r| <= i < |s| ==> s[i] == '-'
  {
    if |s| > 0 && s[|s| - 1] == '-' then DropTrailingDashes(s[..|s| - 1]) else s
  }

  /** `_slugify(text)` for a string: never a dash at either end (the rest of
      what makes it a slug is `SlugifyIsSlug`). */
  function Slugify(s: string): (r: string)
    ensures |r| > 0 ==> r[0] != '-' && r[|r| - 1] != '-'
  {
    DropTrailingDashes(DropDashes(CollapseDashes(KeepWords(DashSpaces(ToLower(s))))))
  }

  // ---------------------------------------------------------------------------
  // What a slug is
  // ---------------------------------------------------------------------------

  predicate IsSlugChar(c: char) {
    'a' <= c <= 'z' || '0' <= c <= '9' || c == '_' || c == '-'
  }

  /** No two dashes side by side. */
  predicate NoDoubleDash(s: string) {
    forall i :: 0 <= i < |s| - 1 ==> !(s[i] == '-' && s[i + 1] == '-')
  }

  /** Lower-case letters, digits, `_` and single dashes, with no dash at either end. */
  predicate IsSlug(s: string) {
    && (forall i :: 0 <= i < |s| ==> IsSlugChar(s[i]))
    && NoDoubleDash(s)
    && (|s| > 0 ==> s[0] != '-' && s[|s| - 1] != '-')
  }

  // ---------------------------------------------------------------------------
  // Each step keeps what the previous ones established
  // ---------------------------------------------------------------------------

  lemma ToLowerNoUpper(s: string)
    ensures forall c :: c in ToLower(s) ==> !('A' <= c <= 'Z')
  {
    var r := ToLower(s);
    forall c | c in r
      ensures !('A' <= c <= 'Z')
    {
      var i :| 0 <= i < |r| && r[i] == c;
      assert c == Lower(s[i]);
    }
  }

  /** Collapsing leaves no two dashes side by side and no leading dash where
      the input had none. */
  lemma {:induction false} CollapseNoDouble(s: string)
    ensures NoDoubleDash(CollapseDashes(s))
    ensures |CollapseDashes(s)| > 0 ==> (CollapseDashes(s)[0] == '-' <==> s[0] == '-')
    decreases |s|
  {
    if |s| > 0 {
      var r := CollapseDashes(s);
      if s[0] == '-' {
        var d := DropDashes(s[1..]);
        CollapseNoDouble(d);
        var rest := CollapseDashes(d);
        assert r == "-" + rest;
        forall i | 0 <= i < |r| - 1
          ensures !(r[i] == '-' && r[i + 1] == '-')
        {
          if i > 0 {
            assert r[i] == rest[i - 1] && r[i + 1] == rest[i];
          }
        }
      } else {
        CollapseNoDouble(s[1..]);
        var rest := CollapseDashes(s[1..]);
        assert r == [s[0]] + rest;
        forall i | 0 <= i < |r| - 1
          ensures !(r[i] == '-' && r[i + 1] == '-')
        {
          if i > 0 {
            assert r[i] == rest[i - 1] && r[i + 1] == rest[i];
          }
        }
      }
    }
  }

  /** Only slug characters survive lower-casing and the removal of non-word characters. */
  lemma SlugChars(s: string)
    ensures forall c :: c in CollapseDashes(KeepWords(DashSpaces(ToLower(s)))) ==> IsSlugChar(c)
  {
    var a := ToLower(s);
    ToLowerNoUpper(s);
    var b := DashSpaces(a);
    assert forall c :: c in b ==> !('A' <= c <= 'Z');
  }

  /** Slug characters without double dashes, the facts trimming keeps. */
  predicate SlugBody(d: string) {
    (forall i :: 0 <= i < |d| ==> IsSlugChar(d[i])) && NoDoubleDash(d)
  }

  lemma SuffixBody(d: string, e: string)
    requires SlugBody(d)
    requires |e| <= |d| && e == d[|d| - |e|..]
    ensures SlugBody(e)
  {
    var lo := |d| - |e|;
    assert forall i :: 0 <= i < |e| ==> e[i] == d[lo + i];
  }

  lemma PrefixBody(e: string, r: string)
    requires SlugBody(e)
    requires |r| <= |e| && r == e[..|r|]
    ensures SlugBody(r)
  {
    assert forall i :: 0 <= i < |r| ==> r[i] == e[i];
  }

  /** Trimming the dashes at both ends of a string of slug characters
      without double dashes leaves a slug. */
  lemma TrimmedSlug(d: string)
    requires forall i :: 0 <= i < |d| ==> IsSlugChar(d[i])
    requires NoDoubleDash(d)
    ensures IsSlug(DropTrailingDashes(DropDashes(d)))
  {
    var e := DropDashes(d);
    var r := DropTrailingDashes(e);
    SuffixBody(d, e);
    PrefixBody(e, r);
    if |r| > 0 {
      assert r[0] == e[0];
    }
  }

  /** Every string `_slugify` returns is a slug. */
  lemma SlugifyIsSlug(s: string)
    ensures IsSlug(Slugify(s))
  {
    var c := KeepWords(DashSpaces(ToLower(s)));
    SlugChars(s);
    CollapseNoDouble(c);
    var d := CollapseDashes(c);
    assert forall i :: 0 <= i < |d| ==> d[i] in d;
    TrimmedSlug(d);
  }

  // ---------------------------------------------------------------------------
  // A slug is left as it is
  // ---------------------------------------------------------------------------

  lemma {:induction false} ToLowerSlug(s: string)
    requires forall i :: 0 <= i < |s| ==> IsSlugChar(s[i])
    ensures ToLower(s) == s
  {
    if |s| > 0 {
      assert IsSlugChar(s[0]);
      ToLowerSlug(s[1..]);
      assert s == [s[0]] + s[1..];
    }
  }

  lemma {:induction false} DashSpacesSlug(s: string)
    requires forall i :: 0 <= i < |s| ==> IsSlugChar(s[i])
    ensures DashSpaces(s) == s
  {
    if |s| > 0 {
      assert IsSlugChar(s[0]);
      DashSpacesSlug(s[1..]);
      assert s == [s[0]] + s[1..];
    }
  }

  lemma {:induction false} KeepWordsSlug(s: string)
    requires forall i :: 0 <= i < |s| ==> IsSlugChar(s[i])
    ensures KeepWords(s) == s
  {
    if |s| > 0 {
      assert IsSlugChar(s[0]);
      KeepWordsSlug(s[1..]);
      assert s == [s[0]] + s[1..];
    }
  }

  lemma {:induction false} CollapseSlug(s: string)
    requires NoDoubleDash(s)
    ensures CollapseDashes(s) == s
  {
    if |s| > 0 {
      var t := s[1..];
      assert NoDoubleDash(t) by {
        forall i | 0 <= i < |t| - 1
          ensures !(t[i] == '-' && t[i + 1] == '-')
        {
          assert t[i] == s[i + 1] && t[i + 1] == s[i + 2];
        }
      }
      if s[0] == '-' {
        assert |t| > 0 ==> t[0] == s[1];
        assert DropDashes(t) == t;
      }
      CollapseSlug(t);
      assert s == [s[0]] + t;
    }
  }

  /** A slug is its own slug. */
  lemma SlugFixed(s: string)
    requires IsSlug(s)
    ensures Slugify(s) == s
  {
    ToLowerSlug(s);
    DashSpacesSlug(s);
    KeepWordsSlug(s);
    CollapseSlug(s);
  }

  /** `_slugify` changes exactly the strings that are not slugs. */
  lemma SlugFixedIff(s: string)
    ensures Slugify(s) == s <==> IsSlug(s)
  {
    if IsSlug(s) {
      SlugFixed(s);
    } else {
      SlugifyIsSlug(s);
    }
  }

  /** `_slugify` is idempotent. */
  lemma SlugifyIdempotent(s: string)
    ensures Slugify(Slugify(s)) == Slugify(s)
  {
    SlugifyIsSlug(s);
    SlugFixed(Slugify(s));
  }

  // ---------------------------------------------------------------------------
  // What the chain does to words apart
  // ---------------------------------------------------------------------------

  lemma NoUpperLower(s: string)
    requires forall i :: 0 <= i < |s| ==> !('A' <= s[i] <= 'Z')
    ensures ToLower(s) == s
  {
    assert forall i :: 0 <= i < |s| ==> ToLower(s)[i] == s[i];
  }

  lemma DashSpacesCons(c: char, y: string)
    requires !IsJsSpace(c)
    ensures DashSpaces([c] + y) == [c] + DashSpaces(y)
  {
    assert ([c] + y)[1..] == y;
  }

  lemma {:induction false} DashSpacesPrefix(a: string, x: string)
    requires forall i :: 0 <= i < |a| ==> !IsJsSpace(a[i])
    ensures DashSpaces(a + x) == a + DashSpaces(x)
  {
    if |a| > 0 {
      var c, rest := a[0], a[1..];
      assert a + x == [c] + (rest + x);
      DashSpacesCons(c, rest + x);
      DashSpacesPrefix(rest, x);
      assert [c] + (rest + DashSpaces(x)) == a + DashSpaces(x);
    } else {
      assert a + x == x;
    }
  }

  lemma {:induction false} TrimSpaces(w: string, b: string)
    requires forall i :: 0 <= i < |w| ==> IsJsSpace(w[i])
    requires |b| > 0 && !IsJsSpace(b[0])
    ensures TrimStart(w + b) == b
  {
    if |w| > 0 {
      TrimSpaces(w[1..], b);
      assert (w + b)[1..] == w[1..] + b;
    } else {
      assert w + b == b;
    }
  }

  /** Dropping trailing dashes keeps every other character as often as it occurs. */
  lemma {:induction false} DropTrailingKeeps(s: string)
    ensures forall c :: c != '-' ==> multiset(DropTrailingDashes(s))[c] == multiset(s)[c]
  {
    if |s| > 0 && s[|s| - 1] == '-' {
      DropTrailingKeeps(s[..|s| - 1]);
      assert s == s[..|s| - 1] + [s[|s| - 1]];
    }
  }

  /** Every letter, digit and underscore of the lower-cased text survives
      `_slugify`, as often as it occurs; only white space, dashes and other
      characters are dropped or replaced. */
  lemma SlugifyKeepsWords(s: string)
    ensures forall c :: IsWordOrDash(c) && c != '-' ==> multiset(Slugify(s))[c] == multiset(ToLower(s))[c]
  {
    var a := ToLower(s);
    var b := DashSpaces(a);
    var k := KeepWords(b);
    var d := CollapseDashes(k);
    var e := DropDashes(d);
    DashSpacesKeeps(a);
    KeepWordsKeeps(b);
    CollapseKeeps(k);
    DropDashesKeeps(d);
    DropTrailingKeeps(e);
  }

  // ---------------------------------------------------------------------------
  // The order of what survives
  // ---------------------------------------------------------------------------

  /** The letters, digits and underscores of a string, in order. */
  function WordChars(s: string): (r: string)
    ensures forall i :: 0 <= i < |r| ==> IsWordOrDash(r[i]) && r[i] != '-'
  {
    if |s| == 0 then ""
    else (if IsWordOrDash(s[0]) && s[0] != '-' then [s[0]] else "") + WordChars(s[1..])
  }

  /** A string without its dashes, in order. */
  function NonDashes(s: string): (r: string)
    ensures '-' !in r
  {
    if |s| == 0 then ""
    else (if s[0] != '-' then [s[0]] else "") + NonDashes(s[1..])
  }

  lemma {:induction false} NonDashesAppend(a: string, b: string)
    ensures NonDashes(a + b) == NonDashes(a) + NonDashes(b)
  {
    if |a| > 0 {
      NonDashesAppend(a[1..], b);
      assert (a + b)[1..] == a[1..] + b;
    } else {
      assert a + b == b;
    }
  }

  /** Leading white space holds no word character. */
  lemma {:induction false} TrimStartWords(s: string)
    ensures WordChars(TrimStart(s)) == WordChars(s)
  {
    if |s| > 0 && IsJsSpace(s[0]) {
      assert TrimStart(s) == TrimStart(s[1..]);
      assert WordChars(s) == WordChars(s[1..]);
      TrimStartWords(s[1..]);
    } else {
      assert TrimStart(s) == s;
    }
  }

  /** Replacing white space runs by dashes keeps the word characters in order. */
  lemma {:induction false} DashSpacesWords(s: string)
    ensures WordChars(DashSpaces(s)) == WordChars(s)
    decreases |s|
  {
    if |s| > 0 {
      var r := DashSpaces(s);
      if IsJsSpace(s[0]) {
        var t := TrimStart(s[1..]);
        DashSpacesWords(t);
        TrimStartWords(s[1..]);
        assert r[0] == '-' && r[1..] == DashSpaces(t);
      } else {
        DashSpacesWords(s[1..]);
        assert r[0] == s[0] && r[1..] == DashSpaces(s[1..]);
      }
    }
  }

  /** Removing the other characters leaves the word characters, in order, between dashes. */
  lemma {:induction false} KeepWordsOrder(s: string)
    ensures NonDashes(KeepWords(s)) == WordChars(s)
  {
    if |s| > 0 {
      KeepWordsOrder(s[1..]);
      if IsWordOrDash(s[0]) {
        var r := KeepWords(s);
        assert r[0] == s[0] && r[1..] == KeepWords(s[1..]);
      }
    }
  }

  /** Dropping leading dashes keeps the other characters in order. */
  lemma {:induction false} DropDashesOrder(s: string)
    ensures NonDashes(DropDashes(s)) == NonDashes(s)
  {
    if |s| > 0 && s[0] == '-' {
      assert DropDashes(s) == DropDashes(s[1..]);
      assert NonDashes(s) == NonDashes(s[1..]);
      DropDashesOrder(s[1..]);
    }
  }

  /** Collapsing dash runs keeps the other characters in order. */
  lemma {:induction false} CollapseOrder(s: string)
    ensures NonDashes(CollapseDashes(s)) == NonDashes(s)
    decreases |s|
  {
    if |s| > 0 {
      var r := CollapseDashes(s);
      if s[0] == '-' {
        var t := DropDashes(s[1..]);
        CollapseOrder(t);
        DropDashesOrder(s[1..]);
        assert r[0] == '-' && r[1..] == CollapseDashes(t);
      } else {
        CollapseOrder(s[1..]);
        assert r[0] == s[0] && r[1..] == CollapseDashes(s[1..]);
      }
    }
  }

  /** Dropping trailing dashes keeps the other characters in order. */
  lemma {:induction false} DropTrailingOrder(s: string)
    ensures NonDashes(DropTrailingDashes(s)) == NonDashes(s)
  {
    if |s| > 0 && s[|s| - 1] == '-' {
      var p := s[..|s| - 1];
      DropTrailingOrder(p);
      assert s == p + "-";
      NonDashesAppend(p, "-");
    }
  }

  /** What `_slugify` keeps of a text, in order: apart from its dashes the
      slug is exactly the letters, digits and underscores of the lower-cased
      text. */
  lemma SlugifyOrder(s: string)
    ensures NonDashes(Slugify(s)) == WordChars(ToLower(s))
  {
    var a := ToLower(s);
    var b := DashSpaces(a);
    var k := KeepWords(b);
    var d := CollapseDashes(k);
    var e := DropDashes(d);
    DropTrailingOrder(e);
    DropDashesOrder(d);
    CollapseOrder(k);
    KeepWordsOrder(b);
    DashSpacesWords(a);
  }

  /** Two slugs with a run of white space between them come out joined by
      one dash: the white space becomes a dash and nothing else changes. */
  lemma SlugifyJoinsWords(a: string, w: string, b: string)
    requires IsSlug(a) && IsSlug(b) && |a| > 0 && |b| > 0
    requires |w| > 0 && forall i :: 0 <= i < |w| ==> IsJsSpace(w[i])
    ensures Slugify(a + w + b) == a + "-" + b
  {
    var t := a + "-" + b;
    LowerJoin(a, w, b);
    DashJoin(a, w, b);
    JoinedSlug(a, b);
    SlugFixed(t);
    ToLowerSlug(t);
    DashSpacesSlug(t);
  }

  lemma LowerJoin(a: string, w: string, b: string)
    requires IsSlug(a) && IsSlug(b)
    requires forall i :: 0 <= i < |w| ==> IsJsSpace(w[i])
    ensures ToLower(a + w + b) == a + w + b
  {
    assert ToLower(a) == a by { ToLowerSlug(a); }
    assert ToLower(b) == b by { ToLowerSlug(b); }
    assert ToLower(w) == w by { NoUpperLower(w); }
    ToLowerAppend(a, w);
    ToLowerAppend(a + w, b);
  }

  lemma ToLowerAppend(x: string, y: string)
    ensures ToLower(x + y) == ToLower(x) + ToLower(y)
  {
    var l, r := ToLower(x + y), ToLower(x) + ToLower(y);
    assert |l| == |r|;
    forall i | 0 <= i < |l|
      ensures l[i] == r[i]
    {
      if i < |x| {
        assert (x + y)[i] == x[i];
      } else {
        assert (x + y)[i] == y[i - |x|];
      }
    }
  }

  lemma DashJoin(a: string, w: string, b: string)
    requires IsSlug(a) && IsSlug(b) && |b| > 0
    requires |w| > 0 && forall i :: 0 <= i < |w| ==> IsJsSpace(w[i])
    ensures DashSpaces(a + w + b) == a + "-" + b
  {
    var x := w + b;
    SlugNoSpace(a);
    DashSpacesPrefix(a, x);
    DashRun(w, b);
    Regroup(a, w, b);
    Regroup(a, "-", b);
  }

  /** `a + w + b` regrouped. */
  lemma Regroup(a: string, w: string, b: string)
    ensures a + w + b == a + (w + b)
  {
  }

  /** A slug holds no white space. */
  lemma SlugNoSpace(a: string)
    requires IsSlug(a)
    ensures forall i :: 0 <= i < |a| ==> !IsJsSpace(a[i])
  {
    forall i | 0 <= i < |a| ensures !IsJsSpace(a[i]) { assert IsSlugChar(a[i]); }
  }

  lemma DashRun(w: string, b: string)
    requires IsSlug(b) && |b| > 0
    requires |w| > 0 && forall i :: 0 <= i < |w| ==> IsJsSpace(w[i])
    ensures DashSpaces(w + b) == "-" + b
  {
    var wb := w + b;
    assert wb[0] == w[0] && wb[1..] == w[1..] + b;
    assert IsSlugChar(b[0]);
    TrimSpaces(w[1..], b);
    DashSpacesSlug(b);
  }

  /** Two non-empty slugs joined by one dash make a slug. */
  lemma JoinedSlug(a: string, b: string)
    requires IsSlug(a) && IsSlug(b) && |a| > 0 && |b| > 0
    ensures IsSlug(a + "-" + b)
  {
    var t := a + "-" + b;
    forall i | 0 <= i < |t|
      ensures IsSlugChar(t[i])
    {
      if i < |a| {
        assert t[i] == a[i];
      } else if i > |a| {
        assert t[i] == b[i - |a| - 1];
      }
    }
    forall i | 0 <= i < |t| - 1
      ensures !(t[i] == '-' && t[i + 1] == '-')
    {
      if i < |a| - 1 {
        assert t[i] == a[i] && t[i + 1] == a[i + 1];
      } else if i == |a| - 1 {
        assert t[i] == a[|a| - 1];
      } else if i == |a| {
        assert t[i + 1] == b[0];
      } else {
        assert t[i] == b[i - |a| - 1] && t[i + 1] == b[i - |a|];
      }
    }
    assert t[0] == a[0] && t[|t| - 1] == b[|b| - 1];
  }

  // ---------------------------------------------------------------------------
  // The id of a new project (server.js lines 208-214)
  // ---------------------------------------------------------------------------

  /** `request.project?.length` is truthy. */
  predicate HasLength(v: Option<Value>) {
    v.Some? &&
    match v.value
    case Str(s) => |s| > 0
    case List(items) => |items| > 0
    case Obj(fields) => "length" in fields && Truthy(fields["length"])
    case _ => false
  }

  /** Some lower-case letter or digit: `match(/[a-z0-9]/)`. */
  predicate HasAlnum(s: string) {
    exists i :: 0 <= i < |s| && ('a' <= s[i] <= 'z' || '0' <= s[i] <= '9')
  }

  /** The fallback id `project-<timestamp>`. */
  function TimestampId(timestamp: nat): string {
    "project-" + Decimal(timestamp)
  }

  /** The id a new project gets: the slug of the requested name when there
      is one holding a letter or digit, `project-<timestamp>` otherwise. */
  function ProjectId(project: Option<Value>, timestamp: nat): (id: string)
    ensures IsSlug(id) && HasAlnum(id)
    ensures !HasLength(project) ==> id == TimestampId(timestamp)
    ensures HasLength(project) && HasAlnum(Slugify(JsString(project.value))) ==> id == Slugify(JsString(project.value))
    ensures HasLength(project) && !HasAlnum(Slugify(JsString(project.value))) ==> id == TimestampId(timestamp)
  {
    TimestampIsSlug(timestamp);
    if !HasLength(project) then TimestampId(timestamp)
    else
      var slug := Slugify(JsString(project.value));
      SlugifyIsSlug(JsString(project.value));
      if |slug| == 0 || !HasAlnum(slug) then TimestampId(timestamp) else slug
  }

  lemma TimestampIsSlug(timestamp: nat)
    ensures IsSlug(TimestampId(timestamp)) && HasAlnum(TimestampId(timestamp))
  {
    var id := TimestampId(timestamp);
    var d := Decimal(timestamp);
    assert id[0] == 'p';
    assert forall i :: 0 <= i < |id| ==> IsSlugChar(id[i]) by {
      forall i | 0 <= i < |id| ensures IsSlugChar(id[i]) {
        if i >= 8 { assert id[i] == d[i - 8]; }
      }
    }
    assert NoDoubleDash(id) by {
      forall i | 0 <= i < |id| - 1 ensures !(id[i] == '-' && id[i + 1] == '-') {
        if i >= 8 { assert id[i] == d[i - 8]; }
        if i == 7 { assert id[i + 1] == d[0]; }
      }
    }
    assert id[|id| - 1] == d[|d| - 1];
  }

  /** A requested name that is already a slug with a letter or digit is kept as it is. */
  lemma SlugNameKept(name: string, timestamp: nat)
    requires IsSlug(name) && HasAlnum(name)
    ensures ProjectId(Some(Str(name)), timestamp) == name
  {
    SlugFixed(name);
    assert JsString(Str(name)) == name;
    assert HasLength(Some(Str(name)));
  }

  /** The first line of the project manager's brief: a named project is
      introduced by its name, a project under the fallback id is not. */
  function BriefText(id: string, timestamp: nat, description: Value): (text: string)
    ensures id != TimestampId(timestamp) ==> StartsWith(text, "Project '" + id + "' :\n")
    ensures id == TimestampId(timestamp) ==> text == JsString(description)
  {
    (if id != TimestampId(timestamp) then "Project '" + id + "' :\n" else "") + JsString(description)
  }

  /** What `POST /api/projects/new` answers: an error when the description is
      missing or empty, the new project's id otherwise. */
  function NewProject(description: Option<Value>, project: Option<Value>, timestamp: nat): (r: Result<string>)
    ensures !HasLength(description) <==> r.Err?
    ensures r.Err? ==> r.error == "> no project description provided"
    ensures r.Ok? ==> r.value == ProjectId(project, timestamp)
  {
    if !HasLength(description) then Err("> no project description provided")
    else Ok(ProjectId(project, timestamp))
  }
}
