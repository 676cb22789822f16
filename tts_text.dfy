/** `cleanTextForTTS` (components/ChatInterface.tsx): the rewrite applied to a
    message before it is sent to the speech model. Four global `replace` passes,
    in this order: drop the markdown marks, turn `[text](url)` into `text`, drop
    emoji and pictographs, collapse whitespace runs to one space and trim.

    JavaScript runs these regular expressions over UTF-16 code units; Dafny
    strings hold Unicode scalar values, so each surrogate-pair alternative of
    the emoji pattern is written as the code-point range it denotes. */
module TtsText {
  import opened Types
  import opened JsText

  /** The class `[*#_`]` of the first pass. */
  predicate IsMarkdownMark(c: char) {
    c == '*' || c == '#' || c == '_' || c == '`'
  }

  /** The emoji pattern of the third pass: the private-use area, the three
      surrogate-pair alternatives (high surrogates D83C, D83D, D83E) and the
      block-element to dingbat range. */
  predicate IsPictograph(c: char) {
    || ('\U{E000}' <= c <= '\U{F8FF}')
    || ('\U{1F000}' <= c <= '\U{1F3FF}')
    || ('\U{1F400}' <= c <= '\U{1F7FF}')
    || ('\U{2580}' <= c <= '\U{27BF}')
    || ('\U{1F910}' <= c <= '\U{1F9FF}')
  }

  /** A global `replace` of a one-character class by the empty string. */
  function Remove(s: string, drop: char -> bool): (r: string)
    ensures |r| <= |s|
  {
    if s == [] then []
    else (if drop(s[0]) then [] else [s[0]]) + Remove(s[1..], drop)
  }

  /** What removal keeps: characters of the input outside the class. */
  lemma {:induction false} RemoveKeeps(s: string, drop: char -> bool)
    ensures forall i :: 0 <= i < |Remove(s, drop)| ==> !drop(Remove(s, drop)[i]) && Remove(s, drop)[i] in s
  {
    if s != [] {
      RemoveKeeps(s[1..], drop);
      var r := Remove(s, drop);
      var head := if drop(s[0]) then [] else [s[0]];
      forall i | 0 <= i < |r| ensures !drop(r[i]) && r[i] in s {
        if i >= |head| {
          var t := Remove(s[1..], drop);
          assert r[i] == t[i - |head|];
          var j :| 0 <= j < |s[1..]| && s[1..][j] == r[i];
          assert s[j + 1] == r[i];
        }
      }
    }
  }

  /** Removal works character by character, so it distributes over concatenation. */
  lemma {:induction false} RemoveAppend(a: string, b: string, drop: char -> bool)
    ensures Remove(a + b, drop) == Remove(a, drop) + Remove(b, drop)
  {
    if a != [] {
      var head := if drop(a[0]) then [] else [a[0]];
      assert (a + b)[0] == a[0];
      assert (a + b)[1..] == a[1..] + b;
      RemoveAppend(a[1..], b, drop);
      calc {
        Remove(a + b, drop);
        head + Remove(a[1..] + b, drop);
        head + (Remove(a[1..], drop) + Remove(b, drop));
        (head + Remove(a[1..], drop)) + Remove(b, drop);
        Remove(a, drop) + Remove(b, drop);
      }
    } else {
      assert a + b == b;
    }
  }

  /** Removal changes a string exactly when some character of it is in the class. */
  lemma {:induction false} RemoveIdentityIff(s: string, drop: char -> bool)
    ensures Remove(s, drop) == s <==> forall i :: 0 <= i < |s| ==> !drop(s[i])
  {
    if s != [] {
      RemoveIdentityIff(s[1..], drop);
      if drop(s[0]) {
        assert |Remove(s, drop)| < |s|;
      } else if Remove(s, drop) == s {
        assert Remove(s[1..], drop) == s[1..];
      }
    }
  }

  // ---------------------------------------------------------------------------
  // Second pass: /\[([^\]]+)\]\([^)]+\)/g replaced by '$1'

  /** Position of the first `c` in `s`. */
  function IndexOf(s: string, c: char): (r: Option<nat>)
    ensures r.Some? ==> r.value < |s| && s[r.value] == c && c !in s[..r.value]
    ensures r.None? ==> c !in s
  {
    if s == [] then None
    else if s[0] == c then Some(0)
    else match IndexOf(s[1..], c)
      case None => None
      case Some(k) => assert s[..k + 1] == [s[0]] + s[1..][..k]; Some(k + 1)
  }

  /** The first occurrence is the only position satisfying IndexOf's contract. */
  lemma IndexOfFirst(s: string, c: char, k: nat)
    requires k < |s| && s[k] == c && c !in s[..k]
    ensures IndexOf(s, c) == Some(k)
  {
  }

  /** Whether the link pattern matches at the start of `s`: `[`, a non-empty
      run without `]`, `](`, a non-empty run without `)`, then `)`. The [^\]]
      run can only end at the first `]` and the [^)] run only at the first `)`,
      so there is no backtracking: the match, when there is one, is this one.
      Yields the bracketed text and the length of the match. */
  function LinkAt(s: string): (r: Option<(string, nat)>)
    ensures r.Some? ==> 4 + |r.value.0| < r.value.1 <= |s| && r.value.0 == s[1..1 + |r.value.0|]
  {
    if s == [] || s[0] != '[' then None
    else match IndexOf(s[1..], ']')
      case None => None
      case Some(j) =>
        if j == 0 || 2 + j >= |s| || s[2 + j] != '(' then None
        else match IndexOf(s[3 + j..], ')')
          case None => None
          case Some(k) => if k == 0 then None else Some((s[1..1 + j], 4 + j + k))
  }

  /** Conversely, every match has the link shape: `[`, a non-empty text
      without `]`, `](`, a non-empty URL without `)`, and `)`. So bracketed text
      that is not such a link (`[1]`, `[](u)`, `[t]()`) never matches. */
  lemma LinkAtShape(s: string)
    requires LinkAt(s).Some?
    ensures var (t, n) := LinkAt(s).value;
            && t != [] && ']' !in t
            && 4 + |t| < n <= |s|
            && s[..n] == "[" + t + "](" + s[3 + |t|..n - 1] + ")"
            && ')' !in s[3 + |t|..n - 1]
  {
    var j := IndexOf(s[1..], ']').value;
    var k := IndexOf(s[3 + j..], ')').value;
    var t, n := s[1..1 + j], 4 + j + k;
    assert LinkAt(s) == Some((t, n));
    assert t == s[1..][..j];
    assert s[3 + j..n - 1] == s[3 + j..][..k];
    assert s[1 + j] == s[1..][j] == ']';
    assert s[n - 1] == s[3 + j..][k] == ')';
    assert s[..n] == "[" + t + "](" + s[3 + j..n - 1] + ")";
  }

  /** Bracketed text that is not a link passes the link pass unchanged. */
  lemma FootnoteKept()
    ensures RewriteLinks("[1] x") == "[1] x"
    ensures RewriteLinks("[](u)") == "[](u)"
  {
    var a, b := "[1] x", "[](u)";
    assert LinkAt(a).None? by {
      if LinkAt(a).Some? { LinkAtShape(a); }
    }
    assert LinkAt(b).None? by {
      if LinkAt(b).Some? { LinkAtShape(b); }
    }
    assert a[1..] == "1] x" && b[1..] == "](u)";
    NotLinkKept(a);
    NotLinkKept(b);
  }

  /** A `[` that does not open a link is copied, and so is bracket-free text after it. */
  lemma NotLinkKept(s: string)
    requires s != [] && LinkAt(s).None? && '[' !in s[1..]
    ensures RewriteLinks(s) == s
  {
    NoBracketPrefix(s[1..], []);
    assert s[1..] + [] == s[1..];
    assert [s[0]] + s[1..] == s;
  }

  /** The global replace scans left to right; a match is replaced by its
      bracketed text and scanning resumes after it. */
  function RewriteLinks(s: string): (r: string)
    ensures |r| <= |s|
    ensures forall i :: 0 <= i < |r| ==> r[i] in s
    decreases |s|
  {
    if s == [] then []
    else match LinkAt(s)
      case Some((text, n)) =>
        var rest := RewriteLinks(s[n..]);
        assert forall i :: 0 <= i < |rest| ==> rest[i] in s[n..];
        text + rest
      case None => [s[0]] + RewriteLinks(s[1..])
  }

  /** A well-formed link is replaced by its text. */
  lemma LinkRewritten(t: string, u: string, rest: string)
    requires t != [] && ']' !in t
    requires u != [] && ')' !in u
    ensures RewriteLinks("[" + t + "](" + u + ")" + rest) == t + RewriteLinks(rest)
  {
    var s := "[" + t + "](" + u + ")" + rest;
    var j := |t|;
    assert s[1..] == t + "](" + u + ")" + rest;
    assert s[1..][..j] == t;
    IndexOfFirst(s[1..], ']', j);
    assert s[2 + j] == '(';
    assert s[3 + j..] == u + ")" + rest;
    assert s[3 + j..][..|u|] == u;
    IndexOfFirst(s[3 + j..], ')', |u|);
    assert s[1..1 + j] == t;
    assert LinkAt(s) == Some((t, 4 + j + |u|));
    assert s[4 + j + |u|..] == rest;
  }

  /** Text before the first `[` passes through the link pass unchanged. */
  lemma {:induction false} NoBracketPrefix(p: string, q: string)
    requires '[' !in p
    ensures RewriteLinks(p + q) == p + RewriteLinks(q)
  {
    if p != [] {
      var s := p + q;
      assert s[0] == p[0] && s[0] != '[';
      assert LinkAt(s) == None;
      assert s[1..] == p[1..] + q;
      NoBracketPrefix(p[1..], q);
      calc {
        RewriteLinks(s);
        [p[0]] + RewriteLinks(p[1..] + q);
        [p[0]] + (p[1..] + RewriteLinks(q));
        ([p[0]] + p[1..]) + RewriteLinks(q);
        { assert [p[0]] + p[1..] == p; }
        p + RewriteLinks(q);
      }
    } else {
      assert p + q == q;
    }
  }

  /** So each link is rewritten wherever it stands after link-free text. */
  lemma LinkInContext(p: string, t: string, u: string, q: string)
    requires '[' !in p
    requires t != [] && ']' !in t
    requires u != [] && ')' !in u
    ensures RewriteLinks(p + "[" + t + "](" + u + ")" + q) == p + t + RewriteLinks(q)
  {
    assert p + "[" + t + "](" + u + ")" + q == p + ("[" + t + "](" + u + ")" + q);
    NoBracketPrefix(p, "[" + t + "](" + u + ")" + q);
    LinkRewritten(t, u, q);
  }

  // ---------------------------------------------------------------------------
  // Fourth pass: .replace(/\s+/g, ' ').trim()

  /** Every maximal whitespace run becomes one U+0020 space. */
  function CollapseWhitespace(s: string): (r: string)
    ensures |r| <= |s|
    decreases |s|
  {
    if s == [] then []
    else if IsWhitespace(s[0]) then " " + CollapseWhitespace(TrimStart(s))
    else [s[0]] + CollapseWhitespace(s[1..])
  }

  /** Collapsing keeps emptiness, and whether the first and the last character are whitespace. */
  lemma {:induction false} CollapseEnds(s: string)
    ensures var r := CollapseWhitespace(s);
            && (r == [] <==> s == [])
            && (r != [] ==> (IsWhitespace(r[0]) <==> IsWhitespace(s[0])))
            && (r != [] ==> (IsWhitespace(r[|r| - 1]) <==> IsWhitespace(s[|s| - 1])))
    decreases |s|
  {
    if s != [] {
      if IsWhitespace(s[0]) {
        var t := TrimStart(s);
        TrimStartDrops(s);
        CollapseEnds(t);
        assert t == [] ==> s[..|s|][|s| - 1] == s[|s| - 1];
        assert t != [] ==> t[|t| - 1] == s[|s| - 1];
      } else {
        CollapseEnds(s[1..]);
      }
    }
  }

  /** Prepending one character to a single-spaced string keeps it single-spaced
      when that character is a plain space followed by non-whitespace, or is
      not whitespace at all. */
  lemma ConsSingleSpaced(c: char, x: string)
    requires SingleSpaced(x)
    requires IsWhitespace(c) ==> c == ' ' && (x == [] || !IsWhitespace(x[0]))
    ensures SingleSpaced([c] + x)
  {
    var r := [c] + x;
    forall i, j | 0 <= i < j < |r| && j == i + 1 ensures !IsWhitespace(r[i]) || !IsWhitespace(r[j]) {
      if i > 0 { assert r[i] == x[i - 1] && r[j] == x[j - 1]; }
    }
    forall i | 0 <= i < |r| && IsWhitespace(r[i]) ensures r[i] == ' ' {
      if i > 0 { assert r[i] == x[i - 1]; }
    }
  }

  /** After collapsing, whitespace is single U+0020 spaces. */
  lemma {:induction false} CollapseSingleSpaced(s: string)
    ensures SingleSpaced(CollapseWhitespace(s))
    decreases |s|
  {
    if s != [] {
      if IsWhitespace(s[0]) {
        var t := TrimStart(s);
        TrimStartDrops(s);
        CollapseSingleSpaced(t);
        CollapseEnds(t);
        ConsSingleSpaced(' ', CollapseWhitespace(t));
      } else {
        CollapseSingleSpaced(s[1..]);
        ConsSingleSpaced(s[0], CollapseWhitespace(s[1..]));
      }
    }
  }

  /** Collapsing writes no character other than U+0020 that was not in the input. */
  lemma {:induction false} CollapseFrom(s: string)
    ensures forall i :: 0 <= i < |CollapseWhitespace(s)| ==>
              CollapseWhitespace(s)[i] == ' ' || CollapseWhitespace(s)[i] in s
    decreases |s|
  {
    if s != [] {
      var k: nat := 1;
      if IsWhitespace(s[0]) {
        TrimStartDrops(s);
        k := |s| - |TrimStart(s)|;
      }
      var t := s[k..];
      var r := CollapseWhitespace(s);
      assert r == [r[0]] + CollapseWhitespace(t);
      CollapseFrom(t);
      forall i | 0 <= i < |r| ensures r[i] == ' ' || r[i] in s {
        if i > 0 && r[i] != ' ' {
          assert r[i] == CollapseWhitespace(t)[i - 1];
          var j :| 0 <= j < |t| && t[j] == r[i];
          assert s[k + j] == r[i];
        }
      }
    }
  }

  /** A run of non-whitespace characters is copied as it is. */
  lemma {:induction false} CollapseWord(w: string, rest: string)
    requires forall i :: 0 <= i < |w| ==> !IsWhitespace(w[i])
    ensures CollapseWhitespace(w + rest) == w + CollapseWhitespace(rest)
  {
    if w == [] {
      assert w + rest == rest;
    } else {
      var s := w + rest;
      assert s[0] == w[0] && !IsWhitespace(s[0]);
      assert s[1..] == w[1..] + rest;
      assert CollapseWhitespace(s) == [w[0]] + CollapseWhitespace(s[1..]);
      CollapseWord(w[1..], rest);
      assert [w[0]] + (w[1..] + CollapseWhitespace(rest)) == w + CollapseWhitespace(rest);
    }
  }

  /** A maximal whitespace run, of whatever length and kind, becomes one space. */
  lemma CollapseRun(run: string, rest: string)
    requires run != [] && AllWhitespace(run)
    requires rest == [] || !IsWhitespace(rest[0])
    ensures CollapseWhitespace(run + rest) == " " + CollapseWhitespace(rest)
  {
    TrimStartRun(run, rest);
    assert (run + rest)[0] == run[0];
  }

  /** Trimming the start of a whitespace run followed by non-whitespace leaves the rest. */
  lemma {:induction false} TrimStartRun(run: string, rest: string)
    requires AllWhitespace(run)
    requires rest == [] || !IsWhitespace(rest[0])
    ensures TrimStart(run + rest) == rest
  {
    if run == [] {
      assert run + rest == rest;
    } else {
      assert (run + rest)[0] == run[0];
      assert (run + rest)[1..] == run[1..] + rest;
      TrimStartRun(run[1..], rest);
    }
  }

  /** Inside `s`, every whitespace character is U+0020 and no two are adjacent. */
  ghost predicate SingleSpaced(s: string) {
    && (forall i :: 0 <= i < |s| && IsWhitespace(s[i]) ==> s[i] == ' ')
    && (forall i, j :: 0 <= i < j < |s| && j == i + 1 ==> !IsWhitespace(s[i]) || !IsWhitespace(s[j]))
  }

  /** The output of the last pass: single-spaced, with no whitespace at either end. */
  ghost predicate WellSpaced(s: string) {
    && SingleSpaced(s)
    && (s != [] ==> !IsWhitespace(s[0]) && !IsWhitespace(s[|s| - 1]))
  }

  /** Trimming a single-spaced string keeps it single-spaced and removes the
      whitespace at its ends; every character it keeps comes from the input. */
  lemma TrimSingleSpaced(c: string)
    requires SingleSpaced(c)
    ensures WellSpaced(Trim(c))
  {
    TrimIsSlice(c);
    var lo := TrimOffset(c);
    var r := Trim(c);
    forall i | 0 <= i < |r| ensures r[i] == c[lo + i] {
    }
    forall i, j | 0 <= i < j < |r| && j == i + 1 ensures !IsWhitespace(r[i]) || !IsWhitespace(r[j]) {
      assert r[i] == c[lo + i] && r[j] == c[lo + j];
    }
  }

  /** Trimming keeps any property every character of its input has. */
  lemma TrimKeeps(c: string, p: char -> bool)
    requires forall i :: 0 <= i < |c| ==> p(c[i])
    ensures forall i :: 0 <= i < |Trim(c)| ==> p(Trim(c)[i])
  {
    TrimIsSlice(c);
    var lo := TrimOffset(c);
    forall i | 0 <= i < |Trim(c)| ensures p(Trim(c)[i]) {
      assert Trim(c)[i] == c[lo + i];
    }
  }

  /** The fourth pass. */
  function NormaliseWhitespace(s: string): (r: string)
    ensures |r| <= |s|
  {
    Trim(CollapseWhitespace(s))
  }

  /** The fourth pass leaves a well-spaced string, made of input characters and U+0020. */
  lemma NormaliseFacts(s: string)
    ensures WellSpaced(NormaliseWhitespace(s))
    ensures forall i :: 0 <= i < |NormaliseWhitespace(s)| ==>
              NormaliseWhitespace(s)[i] == ' ' || NormaliseWhitespace(s)[i] in s
  {
    var c := CollapseWhitespace(s);
    CollapseSingleSpaced(s);
    TrimSingleSpaced(c);
    NormaliseFrom(s);
  }

  /** Provenance half of `NormaliseFacts`. */
  lemma NormaliseFrom(s: string)
    ensures forall i :: 0 <= i < |NormaliseWhitespace(s)| ==>
              NormaliseWhitespace(s)[i] == ' ' || NormaliseWhitespace(s)[i] in s
  {
    CollapseFrom(s);
    TrimKeeps(CollapseWhitespace(s), ch => ch == ' ' || ch in s);
  }

  // ---------------------------------------------------------------------------

  /** A character the normaliser never lets through. */
  predicate Unspeakable(c: char) {
    IsMarkdownMark(c) || IsPictograph(c)
  }

  /** Each pass only deletes characters or writes U+0020, so whatever holds of
      every input character and of U+0020 holds of every output character. */
  lemma Inherit(r: string, s: string, p: char -> bool)
    requires forall i :: 0 <= i < |r| ==> r[i] == ' ' || r[i] in s
    requires p(' ') && forall i :: 0 <= i < |s| ==> p(s[i])
    ensures forall i :: 0 <= i < |r| ==> p(r[i])
  {
    forall i | 0 <= i < |r| ensures p(r[i]) {
      if r[i] != ' ' {
        var j :| 0 <= j < |s| && s[j] == r[i];
      }
    }
  }

  /** `cleanTextForTTS`: the four passes in source order. */
  function CleanTextForTts(text: string): (r: string)
    ensures |r| <= |text|
  {
    var unmarked := Remove(text, IsMarkdownMark);
    var unlinked := RewriteLinks(unmarked);
    var plain := Remove(unlinked, IsPictograph);
    NormaliseWhitespace(plain)
  }

  /** What the cleaner promises the speech model: no markdown mark and no
      pictograph, trimmed, only single spaces, and no character that was not in
      the input apart from U+0020. */
  lemma CleanTextSpeakable(text: string)
    ensures WellSpaced(CleanTextForTts(text))
    ensures forall i :: 0 <= i < |CleanTextForTts(text)| ==> !Unspeakable(CleanTextForTts(text)[i])
    ensures forall i :: 0 <= i < |CleanTextForTts(text)| ==> CleanTextForTts(text)[i] == ' ' || CleanTextForTts(text)[i] in text
  {
    var plain := Remove(RewriteLinks(Remove(text, IsMarkdownMark)), IsPictograph);
    var r := CleanTextForTts(text);
    assert r == NormaliseWhitespace(plain);
    NormaliseFacts(plain);
    PlainChars(text, plain);
    SpeakableThrough(r, plain, text);
  }

  /** A pass that only copies characters of `s` or writes U+0020 keeps them
      speakable and drawn from the original input `text`. */
  lemma SpeakableThrough(r: string, s: string, text: string)
    requires forall i :: 0 <= i < |r| ==> r[i] == ' ' || r[i] in s
    requires forall i :: 0 <= i < |s| ==> !Unspeakable(s[i]) && (s[i] == ' ' || s[i] in text)
    ensures forall i :: 0 <= i < |r| ==> !Unspeakable(r[i]) && (r[i] == ' ' || r[i] in text)
  {
    forall i | 0 <= i < |r| ensures !Unspeakable(r[i]) && (r[i] == ' ' || r[i] in text) {
      if r[i] != ' ' {
        var j :| 0 <= j < |s| && s[j] == r[i];
      }
    }
  }

  /** Before the fourth pass the text holds no markdown mark and no pictograph,
      and only input characters and U+0020. */
  lemma PlainChars(text: string, plain: string)
    requires plain == Remove(RewriteLinks(Remove(text, IsMarkdownMark)), IsPictograph)
    ensures forall i :: 0 <= i < |plain| ==> !Unspeakable(plain[i]) && (plain[i] == ' ' || plain[i] in text)
  {
    var unmarked := Remove(text, IsMarkdownMark);
    RemoveKeeps(text, IsMarkdownMark);
    var unlinked := RewriteLinks(unmarked);
    Inherit(unlinked, unmarked, c => !IsMarkdownMark(c) && (c == ' ' || c in text));
    RemoveKeeps(unlinked, IsPictograph);
    Inherit(plain, unlinked, c => !IsMarkdownMark(c) && (c == ' ' || c in text));
  }

  /** A run of characters that every pass copies unchanged and that holds no link syntax. */
  predicate Word(s: string) {
    s != [] && forall i :: 0 <= i < |s| ==>
      !IsWhitespace(s[i]) && !Unspeakable(s[i]) && s[i] != '[' && s[i] != ']'
  }

  /** A link target the first pass copies unchanged. */
  predicate Url(u: string) {
    u != [] && forall i :: 0 <= i < |u| ==> u[i] != ')' && !IsMarkdownMark(u[i])
  }

  /** The literal pieces of the example shape, through the first pass. */
  lemma MarkPieces(e: char)
    requires IsPictograph(e)
    ensures Remove("** [", IsMarkdownMark) == " ["
    ensures Remove("](", IsMarkdownMark) == "]("
    ensures Remove(") ", IsMarkdownMark) == ") "
    ensures Remove([e], IsMarkdownMark) == [e]
    ensures Remove("  ", IsMarkdownMark) == "  "
  {
  }

  /** First pass over the example shape: only the four asterisks go. */
  lemma ShapeMarks(a: string, b: string, u: string, e: char, c: string)
    requires Word(a) && Word(b) && Word(c) && IsPictograph(e) && Url(u)
    ensures Remove("**" + a + "** [" + b + "](" + u + ") " + [e] + "  " + c, IsMarkdownMark)
         == a + " [" + b + "](" + u + ") " + [e] + "  " + c
  {
    MarkPieces(e);
    RemoveIdentityIff(a, IsMarkdownMark); RemoveIdentityIff(b, IsMarkdownMark); RemoveIdentityIff(c, IsMarkdownMark); RemoveIdentityIff(u, IsMarkdownMark);
    assert Remove("**" + a, IsMarkdownMark) == a by {
      RemoveAppend("**", a, IsMarkdownMark);
      assert "" + a == a;
    }
    RemoveAppend("**" + a, "** [", IsMarkdownMark);
    RemoveAppend("**" + a + "** [", b, IsMarkdownMark);
    RemoveAppend("**" + a + "** [" + b, "](", IsMarkdownMark);
    RemoveAppend("**" + a + "** [" + b + "](", u, IsMarkdownMark);
    RemoveAppend("**" + a + "** [" + b + "](" + u, ") ", IsMarkdownMark);
    RemoveAppend("**" + a + "** [" + b + "](" + u + ") ", [e], IsMarkdownMark);
    RemoveAppend("**" + a + "** [" + b + "](" + u + ") " + [e], "  ", IsMarkdownMark);
    RemoveAppend("**" + a + "** [" + b + "](" + u + ") " + [e] + "  ", c, IsMarkdownMark);
  }

  /** Second pass over the example shape: the link becomes its text. */
  lemma ShapeLink(a: string, b: string, u: string, e: char, c: string)
    requires Word(a) && Word(b) && Word(c) && IsPictograph(e) && Url(u)
    ensures RewriteLinks(a + " [" + b + "](" + u + ") " + [e] + "  " + c) == a + " " + b + " " + [e] + "  " + c
  {
    var p := a + " ";
    var q := " " + [e] + "  " + c;
    assert a + " [" + b + "](" + u + ") " + [e] + "  " + c == p + "[" + b + "](" + u + ")" + q;
    assert '[' !in p && ']' !in b && ')' !in u && '[' !in q by {
      NoChar(a, '['); NoChar(b, ']'); NoChar(c, '[');
      assert ')' !in u by { NoUrlParen(u); }
    }
    LinkInContext(p, b, u, q);
    assert RewriteLinks(q) == q by {
      NoBracketPrefix(q, "");
      assert q + "" == q;
      assert RewriteLinks("") == "";
    }
    LinkRegroup(a, b, e, c);
  }

  /** The pieces around the rewritten link, put back together. */
  lemma LinkRegroup(a: string, b: string, e: char, c: string)
    ensures (a + " ") + b + (" " + [e] + "  " + c) == a + " " + b + " " + [e] + "  " + c
  {
  }

  /** A word holds no bracket. */
  lemma NoChar(w: string, x: char)
    requires Word(w) && (x == '[' || x == ']')
    ensures x !in w
  {
  }

  /** A link target holds no closing parenthesis. */
  lemma NoUrlParen(u: string)
    requires Url(u)
    ensures ')' !in u
  {
  }

  /** Third pass over the example shape: only the pictograph goes. */
  lemma ShapeEmoji(a: string, b: string, e: char, c: string)
    requires Word(a) && Word(b) && Word(c) && IsPictograph(e)
    ensures Remove(a + " " + b + " " + [e] + "  " + c, IsPictograph) == a + " " + b + " " + "  " + c
  {
    RemoveIdentityIff(a, IsPictograph); RemoveIdentityIff(b, IsPictograph); RemoveIdentityIff(c, IsPictograph);
    assert Remove(" ", IsPictograph) == " ";
    assert Remove("  ", IsPictograph) == "  ";
    assert Remove([e], IsPictograph) == [];
    RemoveAppend(a, " ", IsPictograph);
    RemoveAppend(a + " ", b, IsPictograph);
    RemoveAppend(a + " " + b, " ", IsPictograph);
    RemoveAppend(a + " " + b + " ", [e], IsPictograph);
    assert a + " " + b + " " + [] == a + " " + b + " ";
    RemoveAppend(a + " " + b + " " + [e], "  ", IsPictograph);
    RemoveAppend(a + " " + b + " " + [e] + "  ", c, IsPictograph);
  }

  /** Fourth pass over the example shape: one space between words, nothing to trim. */
  lemma ShapeSpaces(a: string, b: string, c: string)
    requires Word(a) && Word(b) && Word(c)
    ensures NormaliseWhitespace(a + " " + b + " " + "  " + c) == a + " " + b + " " + c
  {
    ShapeCollapse(a, b, c);
    var r := a + " " + b + " " + c;
    assert TrimStart(r) == r by { assert r[0] == a[0]; }
    assert TrimEnd(r) == r by { assert r[|r| - 1] == c[|c| - 1]; }
  }

  /** The three-space run between the last two words becomes one space. */
  lemma ShapeCollapse(a: string, b: string, c: string)
    requires Word(a) && Word(b) && Word(c)
    ensures CollapseWhitespace(a + " " + b + " " + "  " + c) == a + " " + b + " " + c
  {
    Regroup(a, b, c);
    RunThenWord("   ", c);
    CollapseWord(b, "   " + c);
    CollapseRun(" ", b + ("   " + c));
    CollapseWord(a, " " + (b + ("   " + c)));
  }

  /** The same strings, grouped from the right. */
  lemma Regroup(a: string, b: string, c: string)
    ensures a + " " + b + " " + "  " + c == a + (" " + (b + ("   " + c)))
    ensures a + " " + b + " " + c == a + (" " + (b + (" " + c)))
  {
    assert " " + "  " == "   ";
  }

  /** A whitespace run before a final word becomes one space. */
  lemma RunThenWord(run: string, c: string)
    requires run != [] && AllWhitespace(run) && Word(c)
    ensures CollapseWhitespace(run + c) == " " + c
  {
    CollapseWord(c, "");
    assert c + "" == c;
    assert CollapseWhitespace("") == "";
    CollapseRun(run, c);
  }

  /** Bold text, a link, a pictograph and a double space around three plain words
      come out as the three words separated by single spaces. */
  lemma CleanTextShape(a: string, b: string, u: string, e: char, c: string)
    requires Word(a) && Word(b) && Word(c) && IsPictograph(e) && Url(u)
    ensures CleanTextForTts("**" + a + "** [" + b + "](" + u + ") " + [e] + "  " + c) == a + " " + b + " " + c
  {
    ShapeMarks(a, b, u, e, c);
    ShapeLink(a, b, u, e, c);
    ShapeEmoji(a, b, e, c);
    ShapeSpaces(a, b, c);
  }

  /** The example text is an instance of the shape. */
  lemma ExampleText()
    ensures "**" + "Ciao" + "** [" + "qui" + "](" + "http://x" + ") " + ['\U{1F600}'] + "  " + "mondo"
         == "**Ciao** [qui](http://x) \U{1F600}  mondo"
    ensures "Ciao" + " " + "qui" + " " + "mondo" == "Ciao qui mondo"
  {
  }

  /** A worked example: bold markup, a link, an emoji and a double space. */
  lemma CleanTextExample()
    ensures CleanTextForTts("**Ciao** [qui](http://x) \U{1F600}  mondo") == "Ciao qui mondo"
  {
    ExampleText();
    CleanTextShape("Ciao", "qui", "http://x", '\U{1F600}', "mondo");
  }
}
