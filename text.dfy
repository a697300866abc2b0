/** Text utilities shared by both classifier variants: the `normalize`
    canonicalisation (case fold, whitespace collapse) and the substring
    containment that every rule check of the classifier uses. */
module Text {

  // ---------------------------------------------------------------------
  // Characters
  // ---------------------------------------------------------------------

  /** The characters matched by `\s` in a Python `str` pattern: the ASCII
      whitespace characters, the information separators 0x1C-0x1F and the
      Unicode space and line/paragraph separators. */
  predicate IsWhitespace(c: char) {
    || c == ' '
    || '\t' <= c <= '\r'              // \t \n \v \f \r
    || '\U{1C}' <= c <= '\U{1F}'
    || c == '\U{85}' || c == '\U{A0}' || c == '\U{1680}'
    || '\U{2000}' <= c <= '\U{200A}'
    || c == '\U{2028}' || c == '\U{2029}' || c == '\U{202F}'
    || c == '\U{205F}' || c == '\U{3000}'
  }

  predicate IsUpper(c: char) {
    'A' <= c <= 'Z'
  }

  /** Lower-casing of one character, restricted to ASCII. */
  function LowerChar(c: char): (d: char)
    ensures !IsUpper(d)
    ensures IsWhitespace(d) <==> IsWhitespace(c)
    ensures IsUpper(c) ==> d as int == c as int + 32
    ensures !IsUpper(c) ==> d == c
  {
    if IsUpper(c) then (c as int + 32) as char else c
  }

  /** `str.lower()`, restricted to ASCII. */
  function Lower(s: string): (r: string)
    ensures |r| == |s|
    ensures forall i :: 0 <= i < |s| ==> r[i] == LowerChar(s[i])
  {
    if s == [] then [] else [LowerChar(s[0])] + Lower(s[1..])
  }

  // ---------------------------------------------------------------------
  // Whitespace collapse: re.sub(r"\s+", " ", s)
  // ---------------------------------------------------------------------

  /** Strips the leading run of whitespace (the rest of a `\s+` match). */
  function DropWhitespace(s: string): (r: string)
    ensures |r| <= |s|
    ensures r == [] || !IsWhitespace(r[0])
  {
    if s != [] && IsWhitespace(s[0]) then DropWhitespace(s[1..]) else s
  }

  /** What DropWhitespace removes is a whitespace prefix. */
  lemma {:induction false} DropWhitespaceSuffix(s: string)
    ensures DropWhitespace(s) == s[|s| - |DropWhitespace(s)|..]
    ensures AllWhitespace(s[..|s| - |DropWhitespace(s)|])
    decreases |s|
  {
    if s != [] && IsWhitespace(s[0]) {
      DropWhitespaceSuffix(s[1..]);
      assert s[1..][..|s| - 1 - |DropWhitespace(s)|] == s[1..|s| - |DropWhitespace(s)|];
    }
  }

  /** Every maximal run of whitespace replaced by one space, scanning left
      to right as the regular-expression substitution does. Nothing is
      trimmed: a leading or trailing run becomes a leading or trailing space. */
  function Collapse(s: string): string
    decreases |s|
  {
    if s == [] then []
    else if IsWhitespace(s[0]) then [' '] + Collapse(DropWhitespace(s[1..]))
    else [s[0]] + Collapse(s[1..])
  }

  /** The shape of a collapsed string: it is collapsed, empty only for empty
      input, and it starts and ends with a space exactly where the input
      starts and ends with whitespace. */
  lemma {:induction false} CollapseShape(s: string)
    ensures IsCollapsed(Collapse(s))
    ensures |Collapse(s)| == 0 <==> |s| == 0
    ensures |s| > 0 ==> Collapse(s)[0] == (if IsWhitespace(s[0]) then ' ' else s[0])
    ensures |s| > 0 ==> (IsWhitespace(s[|s| - 1]) <==> Collapse(s)[|Collapse(s)| - 1] == ' ')
    decreases |s|
  {
    if s == [] {
    } else {
      var rest := if IsWhitespace(s[0]) then DropWhitespace(s[1..]) else s[1..];
      var head := if IsWhitespace(s[0]) then ' ' else s[0];
      CollapseShape(rest);
      DropWhitespaceSuffix(s[1..]);
      var r := Collapse(s);
      assert r == [head] + Collapse(rest);
      ConsCollapsed(head, Collapse(rest));
      assert rest != [] ==> rest[|rest| - 1] == s[|s| - 1];
      assert rest == [] ==> IsWhitespace(s[0]) == IsWhitespace(s[|s| - 1]) by {
        if rest == [] && !IsWhitespace(s[0]) {
          assert |s| == 1;
        }
      }
      assert IsWhitespace(head) ==> rest == [] || !IsWhitespace(rest[0]);
    }
  }

  /** One character in front of a collapsed text keeps it collapsed when the
      character is a non-space or a space before a non-space. */
  lemma ConsCollapsed(c: char, r: string)
    requires IsCollapsed(r)
    requires !IsWhitespace(c) || c == ' '
    requires IsWhitespace(c) ==> r == [] || !IsWhitespace(r[0])
    ensures IsCollapsed([c] + r)
  {
    var s := [c] + r;
    forall i | 0 <= i < |s| - 1 ensures !(IsWhitespace(s[i]) && IsWhitespace(s[i + 1])) {
      if i > 0 {
        assert s[i] == r[i - 1] && s[i + 1] == r[i];
      }
    }
  }

  /** The only whitespace is ' ' and no two whitespace characters are adjacent. */
  predicate IsCollapsed(s: string) {
    && (forall i :: 0 <= i < |s| && IsWhitespace(s[i]) ==> s[i] == ' ')
    && (forall i :: 0 <= i < |s| - 1 ==> !(IsWhitespace(s[i]) && IsWhitespace(s[i + 1])))
  }

  predicate HasNoUpper(s: string) {
    forall i :: 0 <= i < |s| ==> !IsUpper(s[i])
  }

  /** What `normalize` promises of its output. */
  predicate IsNormalized(s: string) {
    HasNoUpper(s) && IsCollapsed(s)
  }

  /** The non-whitespace characters of `s`, in order. */
  function Squeeze(s: string): (r: string)
    ensures |r| <= |s|
  {
    if s == [] then []
    else if IsWhitespace(s[0]) then Squeeze(s[1..])
    else [s[0]] + Squeeze(s[1..])
  }

  // ---------------------------------------------------------------------
  // normalize
  // ---------------------------------------------------------------------

  /** `normalize`: empty input gives "", otherwise lower-case then collapse
      whitespace runs, without trimming. */
  function Normalize(text: string): (r: string)
    ensures |r| == 0 <==> |text| == 0
  {
    CollapseShape(Lower(text));
    Collapse(Lower(text))
  }

  /** What `Normalize` yields: a normalized text that keeps whether the
      input starts and ends with whitespace, and equals the input once
      whitespace is dropped and letters are lowered. Stated as a lemma so
      that callers which only read the text do not carry these facts. */
  lemma NormalizeShape(text: string)
    ensures IsNormalized(Normalize(text))
    ensures |text| > 0 ==> (IsWhitespace(text[0]) <==> Normalize(text)[0] == ' ')
    ensures |text| > 0 ==> (IsWhitespace(text[|text| - 1]) <==> Normalize(text)[|Normalize(text)| - 1] == ' ')
    ensures Squeeze(Normalize(text)) == Lower(Squeeze(text))
  {
    CollapseShape(Lower(text));
    CollapseKeepsNoUpper(Lower(text));
    SqueezeCollapse(Lower(text));
    SqueezeLower(text);
  }

  lemma {:induction false} CollapseKeepsNoUpper(s: string)
    requires HasNoUpper(s)
    ensures HasNoUpper(Collapse(s))
    decreases |s|
  {
    if s == [] {
    } else if IsWhitespace(s[0]) {
      var d := DropWhitespace(s[1..]);
      DropWhitespaceSuffix(s[1..]);
      assert HasNoUpper(d) by {
        forall i | 0 <= i < |d| ensures !IsUpper(d[i]) {
          assert d[i] == s[1..][|s| - 1 - |d| + i];
        }
      }
      CollapseKeepsNoUpper(d);
    } else {
      CollapseKeepsNoUpper(s[1..]);
    }
  }

  lemma {:induction false} SqueezeDropWhitespace(s: string)
    ensures Squeeze(DropWhitespace(s)) == Squeeze(s)
    decreases |s|
  {
    if s != [] && IsWhitespace(s[0]) {
      SqueezeDropWhitespace(s[1..]);
    }
  }

  /** Collapsing changes whitespace only. */
  lemma {:induction false} SqueezeCollapse(s: string)
    ensures Squeeze(Collapse(s)) == Squeeze(s)
    decreases |s|
  {
    if s == [] {
    } else if IsWhitespace(s[0]) {
      var d := DropWhitespace(s[1..]);
      SqueezeCollapse(d);
      SqueezeDropWhitespace(s[1..]);
      assert ([' '] + Collapse(d))[1..] == Collapse(d);
    } else {
      SqueezeCollapse(s[1..]);
      assert ([s[0]] + Collapse(s[1..]))[1..] == Collapse(s[1..]);
    }
  }

  lemma {:induction false} SqueezeLower(s: string)
    ensures Squeeze(Lower(s)) == Lower(Squeeze(s))
    decreases |s|
  {
    if s != [] {
      SqueezeLower(s[1..]);
      assert Lower(s)[1..] == Lower(s[1..]);
      if !IsWhitespace(s[0]) {
        assert Lower([s[0]] + Squeeze(s[1..])) == [LowerChar(s[0])] + Lower(Squeeze(s[1..]));
      }
    }
  }

  /** A string that is already collapsed is left unchanged by Collapse. */
  lemma {:induction false} CollapseFixpoint(s: string)
    requires IsCollapsed(s)
    ensures Collapse(s) == s
    decreases |s|
  {
    if s != [] {
      assert IsCollapsed(s[1..]) by {
        forall i | 0 <= i < |s[1..]| - 1
          ensures !(IsWhitespace(s[1..][i]) && IsWhitespace(s[1..][i + 1]))
        {
          assert s[1..][i] == s[i + 1] && s[1..][i + 1] == s[i + 2];
        }
      }
      if IsWhitespace(s[0]) {
        assert |s| > 1 ==> !IsWhitespace(s[1]);
        assert DropWhitespace(s[1..]) == s[1..];
      }
      CollapseFixpoint(s[1..]);
    }
  }

  lemma LowerFixpoint(s: string)
    requires HasNoUpper(s)
    ensures Lower(s) == s
  {
  }

  /** `normalize` leaves exactly the normalized strings unchanged. */
  lemma NormalizeFixpointIff(s: string)
    ensures Normalize(s) == s <==> IsNormalized(s)
  {
    NormalizeShape(s);
    if IsNormalized(s) && s != [] {
      LowerFixpoint(s);
      CollapseFixpoint(s);
    }
  }

  /** `normalize` is idempotent. */
  lemma NormalizeIdempotent(s: string)
    ensures Normalize(Normalize(s)) == Normalize(s)
  {
    NormalizeShape(s);
    NormalizeFixpointIff(Normalize(s));
  }

  /** `normalize` ignores case: folding first changes nothing. */
  lemma {:induction false} NormalizeIgnoresCase(s: string)
    ensures Normalize(Lower(s)) == Normalize(s)
  {
    assert Lower(Lower(s)) == Lower(s);
  }

  predicate AllWhitespace(w: string) {
    forall i :: 0 <= i < |w| ==> IsWhitespace(w[i])
  }

  lemma {:induction false} DropWhitespaceConcat(a: string, x: string)
    requires |a| > 0 && !IsWhitespace(a[|a| - 1])
    ensures DropWhitespace(a + x) == DropWhitespace(a) + x
    ensures DropWhitespace(a) != [] && DropWhitespace(a)[|DropWhitespace(a)| - 1] == a[|a| - 1]
    decreases |a|
  {
    if IsWhitespace(a[0]) {
      assert (a + x)[1..] == a[1..] + x;
      DropWhitespaceConcat(a[1..], x);
    }
  }

  lemma {:induction false} DropWhitespaceRun(w: string, b: string)
    requires AllWhitespace(w)
    requires b == [] || !IsWhitespace(b[0])
    ensures DropWhitespace(w + b) == b
    decreases |w|
  {
    if w != [] {
      assert (w + b)[1..] == w[1..] + b;
      DropWhitespaceRun(w[1..], b);
    } else {
      assert w + b == b;
    }
  }

  /** Collapsing a concatenation splits at a non-whitespace character. */
  lemma {:induction false} CollapseConcat(a: string, x: string)
    requires a == [] || !IsWhitespace(a[|a| - 1])
    ensures Collapse(a + x) == Collapse(a) + Collapse(x)
    decreases |a|
  {
    if a == [] {
      assert a + x == x;
    } else if IsWhitespace(a[0]) {
      var d := DropWhitespace(a[1..]);
      assert (a + x)[0] == a[0] && (a + x)[1..] == a[1..] + x;
      DropWhitespaceConcat(a[1..], x);
      assert d != [] && d[|d| - 1] == a[|a| - 1];
      CollapseConcat(d, x);
      calc {
        Collapse(a + x);
        [' '] + Collapse(DropWhitespace(a[1..] + x));
        [' '] + Collapse(d + x);
        [' '] + (Collapse(d) + Collapse(x));
        ([' '] + Collapse(d)) + Collapse(x);
        Collapse(a) + Collapse(x);
      }
    } else {
      assert (a + x)[0] == a[0] && (a + x)[1..] == a[1..] + x;
      CollapseConcat(a[1..], x);
      calc {
        Collapse(a + x);
        [a[0]] + Collapse(a[1..] + x);
        [a[0]] + (Collapse(a[1..]) + Collapse(x));
        ([a[0]] + Collapse(a[1..])) + Collapse(x);
        Collapse(a) + Collapse(x);
      }
    }
  }

  lemma LowerConcat(a: string, b: string)
    ensures Lower(a + b) == Lower(a) + Lower(b)
  {
    assert forall i :: 0 <= i < |a + b| ==> Lower(a + b)[i] == (Lower(a) + Lower(b))[i];
  }

  /** `normalize` ignores the length and the kind of a whitespace run: any
      non-empty run between the same neighbours normalizes alike. */
  lemma NormalizeIgnoresRunLength(a: string, w1: string, w2: string, b: string)
    requires a == [] || !IsWhitespace(a[|a| - 1])
    requires b == [] || !IsWhitespace(b[0])
    requires |w1| > 0 && AllWhitespace(w1) && |w2| > 0 && AllWhitespace(w2)
    ensures Normalize(a + w1 + b) == Normalize(a + w2 + b)
    ensures Normalize(a + w1 + b) == Normalize(a) + [' '] + Normalize(b)
  {
    RunNormalizesToSpace(a, w1, b);
    RunNormalizesToSpace(a, w2, b);
  }

  /** A leading whitespace run collapses to a single space. */
  lemma CollapseLeadingRun(w: string, y: string)
    requires |w| > 0 && AllWhitespace(w)
    requires y == [] || !IsWhitespace(y[0])
    ensures Collapse(w + y) == [' '] + Collapse(y)
  {
    assert (w + y)[0] == w[0] && (w + y)[1..] == w[1..] + y;
    DropWhitespaceRun(w[1..], y);
  }

  lemma CollapseRunToSpace(x: string, w: string, y: string)
    requires x == [] || !IsWhitespace(x[|x| - 1])
    requires y == [] || !IsWhitespace(y[0])
    requires |w| > 0 && AllWhitespace(w)
    ensures Collapse(x + w + y) == Collapse(x) + [' '] + Collapse(y)
  {
    CollapseLeadingRun(w, y);
    assert x + w + y == x + (w + y);
    CollapseConcat(x, w + y);
    var cx, cy := Collapse(x), Collapse(y);
    assert cx + ([' '] + cy) == cx + [' '] + cy;
  }

  lemma RunNormalizesToSpace(a: string, w: string, b: string)
    requires a == [] || !IsWhitespace(a[|a| - 1])
    requires b == [] || !IsWhitespace(b[0])
    requires |w| > 0 && AllWhitespace(w)
    ensures Normalize(a + w + b) == Normalize(a) + [' '] + Normalize(b)
  {
    LowerConcat(a + w, b);
    LowerConcat(a, w);
    CollapseRunToSpace(Lower(a), Lower(w), Lower(b));
  }

  // ---------------------------------------------------------------------
  // Substring containment: Python's `p in s`
  // ---------------------------------------------------------------------

  /** `p` occurs in `s` starting at index `i`. */
  predicate OccursAt(s: string, p: string, i: nat) {
    i + |p| <= |s| && s[i..i + |p|] == p
  }

  /** `p in s` for Python strings: plain substring containment, no word
      boundaries. */
  predicate Contains(s: string, p: string) {
    exists i: nat | i <= |s| :: OccursAt(s, p, i)
  }

  /** `any(p in s for p in ps)`. */
  predicate ContainsAny(s: string, ps: seq<string>) {
    exists k | 0 <= k < |ps| :: Contains(s, ps[k])
  }

  /** Containment is transitive: whatever occurs inside an occurring
      phrase occurs in the text. */
  lemma ContainsTransitive(s: string, q: string, p: string)
    requires Contains(s, q) && Contains(q, p)
    ensures Contains(s, p)
  {
    var i: nat :| i <= |s| && OccursAt(s, q, i);
    var j: nat :| j <= |q| && OccursAt(q, p, j);
    forall k | 0 <= k < |p| ensures s[i + j + k] == p[k] {
      assert q[j + k] == p[k];
      assert s[i..i + |q|][j + k] == s[i + j + k];
    }
    assert s[i + j..i + j + |p|] == p;
    assert OccursAt(s, p, i + j);
  }

  /** Every character of an occurring phrase is a character of the text. */
  lemma ContainsHasChars(s: string, p: string, k: nat)
    requires Contains(s, p) && k < |p|
    ensures p[k] in s
  {
    var i: nat :| i <= |s| && OccursAt(s, p, i);
    assert s[i + k] == p[k];
  }

  /** A phrase with a character the text lacks does not occur in it. */
  lemma NotContainsMissingChar(s: string, p: string, c: char)
    requires c in p && c !in s
    ensures !Contains(s, p)
  {
    if Contains(s, p) {
      var k :| 0 <= k < |p| && p[k] == c;
      ContainsHasChars(s, p, k);
    }
  }

  /** An occurrence in one part of a concatenation is an occurrence in the whole. */
  lemma ContainsInConcat(a: string, b: string, p: string)
    ensures Contains(a, p) ==> Contains(a + b, p)
    ensures Contains(b, p) ==> Contains(a + b, p)
  {
    if Contains(a, p) {
      var i: nat :| i <= |a| && OccursAt(a, p, i);
      assert (a + b)[i..i + |p|] == a[i..i + |p|];
      assert OccursAt(a + b, p, i);
    }
    if Contains(b, p) {
      var i: nat :| i <= |b| && OccursAt(b, p, i);
      assert (a + b)[|a| + i..|a| + i + |p|] == b[i..i + |p|];
      assert OccursAt(a + b, p, |a| + i);
    }
  }

  /** No phrase of `ps` occurs when each has a character, listed in `cs`,
      that the text lacks. */
  lemma NoneOccurs(t: string, ps: seq<string>, cs: seq<char>)
    requires |cs| == |ps|
    requires forall k :: 0 <= k < |ps| ==> cs[k] in ps[k] && cs[k] !in t
    ensures !ContainsAny(t, ps)
  {
    forall k | 0 <= k < |ps| ensures !Contains(t, ps[k]) {
      NotContainsMissingChar(t, ps[k], cs[k]);
    }
  }

  /** A phrase that avoids the character `c` occurs in `a + [c] + b` only
      if it occurs in `a` or in `b`. */
  lemma NotContainsAcross(a: string, c: char, b: string, p: string)
    requires c !in p && !Contains(a, p) && !Contains(b, p)
    ensures !Contains(a + [c] + b, p)
  {
    var s := a + [c] + b;
    forall i: nat | i <= |s| ensures !OccursAt(s, p, i) {
      if i + |p| <= |s| {
        if i + |p| <= |a| {
          assert s[i..i + |p|] == a[i..i + |p|];
          assert !OccursAt(a, p, i);
        } else if i > |a| {
          var j: nat := i - |a| - 1;
          assert s[i..i + |p|] == b[j..j + |p|];
          assert !OccursAt(b, p, j);
        } else {
          assert s[i..i + |p|][|a| - i] == c;
        }
      }
    }
  }
}
