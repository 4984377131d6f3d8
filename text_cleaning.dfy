/**
 * The text functions of the book-data cleaner: `clean_text`, `extract_hashtags`,
 * `extract_mentions` and `extract_keywords`.
 *
 * Characters are modelled as ASCII: `IsSpace` is the ASCII part of Python's
 * `str.isspace` (which both `strip`/`split` and the regular expression class `\s`
 * use), `IsWordChar` is the ASCII part of the regular expression class `\w`, and
 * `LowerChar` is the ASCII part of `str.lower`. A value that is not a Python `str`
 * (a missing cell, a number) is `None`.
 */
module TextCleaning {
  import opened Wrappers

  // ---------------------------------------------------------------------------
  // Character classes
  // ---------------------------------------------------------------------------

  /** Python whitespace restricted to ASCII: tab to carriage return, the four
      separators 0x1C..0x1F, and the blank. */
  predicate IsSpace(c: char) {
    c == ' ' || ('\t' <= c <= '\r') || ('\U{1C}' <= c <= '\U{1F}')
  }

  predicate IsUpper(c: char) { 'A' <= c <= 'Z' }

  predicate IsDigit(c: char) { '0' <= c <= '9' }

  /** The characters the cleaner keeps: `[a-z0-9\s]`. */
  predicate IsAllowed(c: char) { ('a' <= c <= 'z') || IsDigit(c) || IsSpace(c) }

  /** A character that may appear in cleaned text. */
  predicate IsCleanChar(c: char) { ('a' <= c <= 'z') || IsDigit(c) || c == ' ' }

  /** The regular expression class `\w` restricted to ASCII. */
  predicate IsWordChar(c: char) {
    ('a' <= c <= 'z') || IsUpper(c) || IsDigit(c) || c == '_'
  }

  function LowerChar(c: char): (d: char)
    ensures !IsUpper(d)
    ensures IsWordChar(c) <==> IsWordChar(d)
    ensures IsSpace(c) <==> IsSpace(d)
    ensures !IsUpper(c) ==> d == c
  {
    if IsUpper(c) then (c as int + 32) as char else c
  }

  /** `str.lower` on ASCII text. */
  function Lower(s: string): (r: string)
    ensures |r| == |s|
    ensures forall i :: 0 <= i < |s| ==> r[i] == LowerChar(s[i])
  {
    seq(|s|, i requires 0 <= i < |s| => LowerChar(s[i]))
  }

  lemma {:induction false} LowerUnchanged(s: string)
    requires forall c :: c in s ==> !IsUpper(c)
    ensures Lower(s) == s
  {
    assert forall i :: 0 <= i < |s| ==> !IsUpper(s[i]);
  }

  predicate CleanChars(s: string) {
    forall c :: c in s ==> IsCleanChar(c)
  }

  predicate NoDoubleSpace(s: string) {
    forall i :: 0 <= i < |s| - 1 ==> !(s[i] == ' ' && s[i + 1] == ' ')
  }

  // ---------------------------------------------------------------------------
  // strip, the character filter and whitespace collapsing
  // ---------------------------------------------------------------------------

  /** The number of whitespace characters the text starts with. */
  function LeadingSpaces(s: string): (n: nat)
    ensures n <= |s|
    ensures forall i :: 0 <= i < n ==> IsSpace(s[i])
    ensures n < |s| ==> !IsSpace(s[n])
  {
    if s != [] && IsSpace(s[0]) then 1 + LeadingSpaces(s[1..]) else 0
  }

  /** The number of whitespace characters the text ends with. */
  function TrailingSpaces(s: string): (n: nat)
    ensures n <= |s|
    ensures forall i :: |s| - n <= i < |s| ==> IsSpace(s[i])
    ensures n < |s| ==> !IsSpace(s[|s| - n - 1])
  {
    if s != [] && IsSpace(s[|s| - 1]) then 1 + TrailingSpaces(s[..|s| - 1]) else 0
  }

  /** Drops the leading whitespace. */
  function TrimLeft(s: string): (r: string)
    ensures r == [] || !IsSpace(r[0])
  {
    s[LeadingSpaces(s)..]
  }

  /** Drops the trailing whitespace. */
  function TrimRight(s: string): (r: string)
    ensures r == [] || !IsSpace(r[|r| - 1])
  {
    s[..|s| - TrailingSpaces(s)]
  }

  /** A contiguous piece of a text keeps its blanks single. */
  lemma {:induction false} SliceNoDoubleSpace(s: string, i: nat, j: nat)
    requires i <= j <= |s| && NoDoubleSpace(s)
    ensures NoDoubleSpace(s[i..j])
  {
    var r := s[i..j];
    forall k | 0 <= k < |r| - 1 ensures !(r[k] == ' ' && r[k + 1] == ' ') {
      assert r[k] == s[i + k] && r[k + 1] == s[i + k + 1];
    }
  }

  /** Every element of a slice is an element of the sequence. */
  lemma SliceMembers<T>(s: seq<T>, a: nat, b: nat)
    requires a <= b <= |s|
    ensures forall x :: x in s[a..b] ==> x in s
  {
    forall x | x in s[a..b] ensures x in s {
      var i :| 0 <= i < b - a && s[a..b][i] == x;
      assert s[a + i] == x;
    }
  }

  /** `strip` keeps a contiguous piece of the text. */
  lemma StripSlice(s: string) returns (k: nat)
    ensures var r := TrimRight(TrimLeft(s)); k + |r| <= |s| && r == s[k..k + |r|]
  {
    var t := TrimLeft(s);
    k := |s| - |t|;
    var r := TrimRight(t);
    calc {
      r;
      t[..|r|];
      s[k..][..|r|];
      s[k..k + |r|];
    }
  }

  lemma {:induction false} StripChars(s: string)
    ensures var r := TrimRight(TrimLeft(s)); forall c :: c in r ==> c in s
  {
    var k := StripSlice(s);
    SliceMembers(s, k, k + |TrimRight(TrimLeft(s))|);
  }

  lemma {:induction false} StripSingleBlanks(s: string)
    ensures var r := TrimRight(TrimLeft(s)); NoDoubleSpace(s) ==> NoDoubleSpace(r)
  {
    var k := StripSlice(s);
    if NoDoubleSpace(s) {
      SliceNoDoubleSpace(s, k, k + |TrimRight(TrimLeft(s))|);
    }
  }

  lemma {:induction false} StripNoSpace(s: string)
    ensures var r := TrimRight(TrimLeft(s)); (forall c :: c in s ==> !IsSpace(c)) ==> r == s
  {
    var t := TrimLeft(s);
    if s != [] && forall c :: c in s ==> !IsSpace(c) {
      assert s[0] in s;
      assert t == s;
      assert s[|s| - 1] in s;
    }
  }

  /** `str.strip()`. */
  function Strip(s: string): (r: string)
    ensures r == [] || (!IsSpace(r[0]) && !IsSpace(r[|r| - 1]))
    ensures forall c :: c in r ==> c in s
    ensures NoDoubleSpace(s) ==> NoDoubleSpace(r)
    ensures (forall c :: c in s ==> !IsSpace(c)) ==> r == s
  {
    StripChars(s);
    StripSingleBlanks(s);
    StripNoSpace(s);
    TrimRight(TrimLeft(s))
  }

  /** `re.sub(r'[^a-z0-9\s]', '', s)`. */
  function KeepAllowed(s: string): (r: string)
    ensures forall c :: c in r ==> c in s && IsAllowed(c)
    ensures forall c :: c in s && IsAllowed(c) ==> c in r
    ensures (forall c :: c in s ==> IsAllowed(c)) ==> r == s
    ensures |r| <= |s|
  {
    if s == [] then []
    else if IsAllowed(s[0]) then [s[0]] + KeepAllowed(s[1..])
    else KeepAllowed(s[1..])
  }

  /**
   * The filter works character by character and keeps the order: filtering a
   * concatenation concatenates the filtered parts, and one character is kept
   * exactly when it is allowed.
   */
  lemma {:induction false} KeepAllowedAppend(a: string, b: string)
    ensures KeepAllowed(a + b) == KeepAllowed(a) + KeepAllowed(b)
    ensures |a| == 1 ==> KeepAllowed(a) == (if IsAllowed(a[0]) then a else [])
    decreases |a|
  {
    if a == [] {
      assert a + b == b;
    } else {
      var x, t := a[0], a[1..];
      ConsAppend(a, b);
      KeepAllowedCons(x, t + b);
      KeepAllowedCons(x, t);
      assert a == [x] + t;
      KeepAllowedAppend(t, b);
      ConsAssoc(x, KeepAllowed(t), KeepAllowed(b));
      if |a| == 1 {
        assert t == [];
      }
    }
  }

  /** One step of the filter. */
  lemma KeepAllowedCons(x: char, t: string)
    ensures KeepAllowed([x] + t) == if IsAllowed(x) then [x] + KeepAllowed(t) else KeepAllowed(t)
  {
    assert ([x] + t)[1..] == t;
  }

  /** Prefixing one character keeps blanks single unless it doubles a leading blank. */
  lemma {:induction false} ConsNoDoubleSpace(x: char, rest: string)
    requires NoDoubleSpace(rest)
    requires x != ' ' || rest == [] || rest[0] != ' '
    ensures NoDoubleSpace([x] + rest)
  {
    var s := [x] + rest;
    forall i | 0 <= i < |s| - 1 ensures !(s[i] == ' ' && s[i + 1] == ' ') {
      if i > 0 {
        assert s[i] == rest[i - 1] && s[i + 1] == rest[i];
      }
    }
  }

  /** `re.sub(r'\s+', ' ', s)`: every maximal run of whitespace becomes one blank. */
  function Collapse(s: string): (r: string)
    ensures (r == []) == (s == [])
    ensures s != [] ==> (r[0] == ' ' <==> IsSpace(s[0]))
    ensures s != [] && !IsSpace(s[0]) ==> r[0] == s[0]
    ensures forall c :: c in r ==> c == ' ' || (c in s && !IsSpace(c))
    ensures forall c :: c in s && !IsSpace(c) ==> c in r
    ensures NoDoubleSpace(r)
    decreases |s|
  {
    if s == [] then []
    else if IsSpace(s[0]) then
      var t := TrimLeft(s[1..]);
      var rest := Collapse(t);
      assert forall c :: c in t ==> c in s;
      assert forall c :: c in s && !IsSpace(c) ==> c in t by {
        forall c | c in s && !IsSpace(c) ensures c in t {
          var i :| 0 <= i < |s| && s[i] == c;
          assert s[1..][i - 1] == c;
        }
      }
      ConsNoDoubleSpace(' ', rest);
      [' '] + rest
    else
      var rest := Collapse(s[1..]);
      assert forall c :: c in s[1..] ==> c in s;
      assert forall c :: c in s ==> c == s[0] || c in s[1..];
      ConsNoDoubleSpace(s[0], rest);
      [s[0]] + rest
  }

  /** The tail of a text whose only whitespace is single blanks is such a text too. */
  lemma UnchangedTail(s: string)
    requires s != [] && NoDoubleSpace(s)
    requires forall c :: c in s ==> c == ' ' || !IsSpace(c)
    ensures forall c :: c in s[1..] ==> c == ' ' || !IsSpace(c)
    ensures NoDoubleSpace(s[1..])
    ensures IsSpace(s[0]) ==> s[0] == ' ' && (|s| == 1 || !IsSpace(s[1]))
  {
    var t := s[1..];
    assert forall c :: c in t ==> c in s;
    forall i | 0 <= i < |t| - 1 ensures !(t[i] == ' ' && t[i + 1] == ' ') {
      assert t[i] == s[i + 1] && t[i + 1] == s[i + 2];
    }
    assert s[0] in s;
    if |s| > 1 {
      assert s[1] in s;
    }
  }

  /** A text whose only whitespace is single blanks is left alone by collapsing. */
  lemma {:induction false} CollapseUnchanged(s: string)
    requires forall c :: c in s ==> c == ' ' || !IsSpace(c)
    requires NoDoubleSpace(s)
    ensures Collapse(s) == s
    decreases |s|
  {
    if s != [] {
      var rest := s[1..];
      UnchangedTail(s);
      CollapseUnchanged(rest);
      if IsSpace(s[0]) {
        assert rest == [] || !IsSpace(rest[0]);
        assert TrimLeft(rest) == rest;
      }
      assert s == [s[0]] + rest;
    }
  }

  /** The leading whitespace of a run followed by a non-space character is the run. */
  lemma {:induction false} TrimLeftRun(ws: string, v: string)
    requires forall c :: c in ws ==> IsSpace(c)
    requires v == [] || !IsSpace(v[0])
    ensures TrimLeft(ws + v) == v
    decreases |ws|
  {
    if ws == [] {
      assert ws + v == v;
      assert LeadingSpaces(v) == 0;
    } else {
      assert ws[0] in ws;
      assert (ws + v)[1..] == ws[1..] + v;
      assert forall c :: c in ws[1..] ==> c in ws;
      TrimLeftRun(ws[1..], v);
    }
  }

  /** Putting the head of a non-empty sequence back in front of its tail and a suffix. */
  lemma ConsAppend<T>(w: seq<T>, c: seq<T>)
    requires w != []
    ensures [w[0]] + (w[1..] + c) == w + c
  {
    assert w == [w[0]] + w[1..];
  }

  /** One step of collapsing at a character other than whitespace. */
  lemma CollapseCons(x: char, t: string)
    requires !IsSpace(x)
    ensures Collapse([x] + t) == [x] + Collapse(t)
  {
    assert ([x] + t)[1..] == t;
  }

  /** Characters other than whitespace pass through collapsing unchanged and in place. */
  lemma {:induction false} CollapseWord(w: string, v: string)
    requires forall i :: 0 <= i < |w| ==> !IsSpace(w[i])
    ensures Collapse(w + v) == w + Collapse(v)
    decreases |w|
  {
    if w == [] {
      assert w + v == v;
    } else {
      var t := w[1..] + v;
      assert w + v == [w[0]] + t;
      CollapseCons(w[0], t);
      CollapseWord(w[1..], v);
      ConsAppend(w, Collapse(v));
    }
  }

  /** A whole whitespace run, however long and of whatever characters, becomes one blank. */
  lemma {:induction false} CollapseRun(ws: string, v: string)
    requires ws != [] && forall c :: c in ws ==> IsSpace(c)
    requires v == [] || !IsSpace(v[0])
    ensures Collapse(ws + v) == " " + Collapse(v)
  {
    assert ws[0] in ws;
    assert (ws + v)[0] == ws[0];
    assert (ws + v)[1..] == ws[1..] + v;
    assert forall c :: c in ws[1..] ==> c in ws;
    TrimLeftRun(ws[1..], v);
  }

  /** A word, a whitespace run and the rest: the run becomes one blank between them. */
  lemma CollapseBoundary(w: string, ws: string, v: string)
    requires forall i :: 0 <= i < |w| ==> !IsSpace(w[i])
    requires ws != [] && forall c :: c in ws ==> IsSpace(c)
    requires v == [] || !IsSpace(v[0])
    ensures Collapse(w + ws + v) == w + " " + Collapse(v)
  {
    SeqAssoc(w, ws, v);
    CollapseWord(w, ws + v);
    CollapseRun(ws, v);
    SeqAssoc(w, " ", Collapse(v));
  }

  lemma SeqAssoc<T>(a: seq<T>, b: seq<T>, c: seq<T>)
    ensures a + b + c == a + (b + c)
  {
  }

  // ---------------------------------------------------------------------------
  // clean_text
  // ---------------------------------------------------------------------------

  /**
   * `DataCleaner.clean_text`: lower-case, strip, delete every character outside
   * `[a-z0-9\s]`, then turn each whitespace run into one blank. A value that is not
   * a string gives the empty string.
   */
  function CleanText(t: Option<string>): (r: string)
    ensures CleanChars(r)
    ensures NoDoubleSpace(r)
    ensures t.None? ==> r == []
  {
    match t
    case None => []
    case Some(s) => Collapse(KeepAllowed(Strip(Lower(s))))
  }

  /** Every ASCII letter or digit of the text reaches the output, lower-cased. */
  lemma {:induction false} CleanTextKeepsLetters(s: string, c: char)
    requires c in s && IsWordChar(c) && c != '_'
    ensures LowerChar(c) in CleanText(Some(s))
  {
    CleanTextKeepsAlphanumeric(s, c);
  }

  /** A character that is not whitespace survives `strip`. */
  lemma StripKeeps(l: string, i: nat)
    requires i < |l| && !IsSpace(l[i])
    ensures l[i] in Strip(l)
  {
    var t := TrimLeft(l);
    var k := |l| - |t|;
    assert k <= i;
    assert t[i - k] == l[i];
    var u := TrimRight(t);
    assert |u| > i - k;
    assert u[i - k] == l[i];
  }

  /** An ASCII letter or digit survives stripping and filtering. */
  lemma {:induction false} CleanTextKeepsAlphanumeric(s: string, c: char)
    requires c in s && IsWordChar(c) && c != '_'
    ensures LowerChar(c) in KeepAllowed(Strip(Lower(s)))
  {
    var i :| 0 <= i < |s| && s[i] == c;
    var l := Lower(s);
    assert l[i] == LowerChar(c);
    StripKeeps(l, i);
    assert IsAllowed(LowerChar(c));
  }

  /**
   * Cleaning cleaned text again can only strip a blank the first pass left at an
   * edge (`"a !"` cleans to `"a "`, which cleans to `"a"`).
   */
  lemma {:induction false} CleanTextTwice(t: Option<string>)
    ensures CleanText(Some(CleanText(t))) == Strip(CleanText(t))
  {
    var o := CleanText(t);
    assert forall c :: c in o ==> !IsUpper(c);
    LowerUnchanged(o);
    var p := Strip(o);
    assert forall c :: c in p ==> IsCleanChar(c);
    assert KeepAllowed(p) == p;
    CollapseUnchanged(p);
  }

  /** Cleaned text without a blank at either edge is a fixed point of cleaning. */
  lemma {:induction false} CleanTextIdempotent(t: Option<string>)
    requires var o := CleanText(t); o == [] || (o[0] != ' ' && o[|o| - 1] != ' ')
    ensures CleanText(Some(CleanText(t))) == CleanText(t)
  {
    var o := CleanText(t);
    CleanTextTwice(t);
    assert forall c :: c in o ==> !IsSpace(c) || c == ' ';
    assert o != [] ==> !IsSpace(o[0]) && !IsSpace(o[|o| - 1]);
    assert TrimLeft(o) == o;
    assert TrimRight(o) == o;
  }

  /** Two passes of cleaning reach a fixed point. */
  lemma {:induction false} CleanTextStable(t: Option<string>)
    ensures CleanText(Some(CleanText(Some(CleanText(t))))) == CleanText(Some(CleanText(t)))
  {
    CleanTextTwice(t);
    var o := CleanText(Some(CleanText(t)));
    assert o == [] || (!IsSpace(o[0]) && !IsSpace(o[|o| - 1]));
    CleanTextIdempotent(Some(CleanText(t)));
  }

  // ---------------------------------------------------------------------------
  // Hashtags and mentions: re.findall(r'#\w+', text) and re.findall(r'@\w+', text)
  // ---------------------------------------------------------------------------

  /** The longest prefix made of word characters. */
  function WordRun(s: string): (w: string)
    ensures |w| <= |s| && w == s[..|w|]
    ensures forall c :: c in w ==> IsWordChar(c)
    ensures |w| == |s| || !IsWordChar(s[|w|])
  {
    if s != [] && IsWordChar(s[0]) then [s[0]] + WordRun(s[1..]) else []
  }

  /** A token as the extractors return it: the marker, then one or more lower-case
      word characters. */
  predicate IsToken(t: string, marker: char) {
    |t| >= 2 && t[0] == marker &&
    forall i :: 1 <= i < |t| ==> IsWordChar(t[i]) && !IsUpper(t[i])
  }

  function Count(s: string, c: char): nat {
    if s == [] then 0 else (if s[0] == c then 1 else 0) + Count(s[1..], c)
  }

  lemma {:induction false} CountSuffix(s: string, c: char, k: nat)
    requires k <= |s|
    ensures Count(s[k..], c) <= Count(s, c)
    decreases k
  {
    if k > 0 {
      CountSuffix(s[1..], c, k - 1);
      assert s[1..][k - 1..] == s[k..];
    }
  }

  /**
   * The non-overlapping matches of `marker\w+`, scanning left to right, each
   * lower-cased. At most one token per occurrence of the marker.
   */
  function Tokens(s: string, marker: char): (r: seq<string>)
    ensures forall k :: 0 <= k < |r| ==> IsToken(r[k], marker)
    ensures |r| <= Count(s, marker)
    decreases |s|
  {
    if s == [] then []
    else if s[0] == marker && |s| > 1 && IsWordChar(s[1]) then
      var w := WordRun(s[1..]);
      var token := [marker] + Lower(w);
      assert forall i :: 1 <= i < |token| ==> token[i] == LowerChar(w[i - 1]) && w[i - 1] in w;
      CountSuffix(s[1..], marker, |w|);
      assert s[1..][|w|..] == s[1 + |w|..];
      [token] + Tokens(s[1 + |w|..], marker)
    else
      Tokens(s[1..], marker)
  }

  /** `extract_hashtags`: non-string input gives no tags. */
  function ExtractHashtags(t: Option<string>): (r: seq<string>)
    ensures forall k :: 0 <= k < |r| ==> IsToken(r[k], '#')
    ensures t.None? ==> r == []
    ensures t.Some? ==> |r| <= Count(t.value, '#')
  {
    match t
    case None => []
    case Some(s) => Tokens(s, '#')
  }

  /** `extract_mentions`: non-string input gives no mentions. */
  function ExtractMentions(t: Option<string>): (r: seq<string>)
    ensures forall k :: 0 <= k < |r| ==> IsToken(r[k], '@')
    ensures t.None? ==> r == []
    ensures t.Some? ==> |r| <= Count(t.value, '@')
  {
    match t
    case None => []
    case Some(s) => Tokens(s, '@')
  }

  lemma {:induction false} WordRunAppend(x: string, b: string)
    requires x != [] && !IsWordChar(x[|x| - 1])
    ensures WordRun(x + b) == WordRun(x)
    ensures |WordRun(x)| < |x|
    decreases |x|
  {
    if IsWordChar(x[0]) {
      assert (x + b)[1..] == x[1..] + b;
      WordRunAppend(x[1..], b);
    }
  }

  lemma {:induction false} WordRunAll(w: string)
    requires forall c :: c in w ==> IsWordChar(c)
    ensures WordRun(w) == w
    decreases |w|
  {
    if w != [] {
      assert forall c :: c in w[1..] ==> c in w;
      WordRunAll(w[1..]);
      assert w == [w[0]] + w[1..];
    }
  }

  /**
   * Extraction distributes over a split at a character that can neither end nor
   * start a match: the tokens come out in their order of appearance.
   */
  lemma {:induction false} TokensAppend(a: string, b: string, marker: char)
    requires !IsWordChar(marker)
    requires a == [] || (!IsWordChar(a[|a| - 1]) && a[|a| - 1] != marker)
    ensures Tokens(a + b, marker) == Tokens(a, marker) + Tokens(b, marker)
    decreases |a|
  {
    if a == [] {
      assert a + b == b;
    } else {
      var s := a + b;
      assert s[0] == a[0];
      assert s[1..] == a[1..] + b;
      if |a| == 1 {
        assert a[1..] == [];
      } else if a[0] == marker && IsWordChar(a[1]) {
        assert s[1] == a[1];
        WordRunAppend(a[1..], b);
        var w := WordRun(a[1..]);
        var tail := a[1 + |w|..];
        DropAppend(a, b, 1 + |w|);
        var token := [marker] + Lower(w);
        TokensAtTag(a, marker);
        TokensAtTag(s, marker);
        assert WordRun(s[1..]) == w;
        assert Tokens(s, marker) == [token] + Tokens(tail + b, marker);
        assert tail[|tail| - 1] == a[|a| - 1];
        TokensAppend(tail, b, marker);
        ConsAssoc(token, Tokens(tail, marker), Tokens(b, marker));
      } else {
        assert s[1] == a[1];
        assert a[1..][|a[1..]| - 1] == a[|a| - 1];
        TokensAppend(a[1..], b, marker);
      }
    }
  }

  /** Dropping a prefix of the first part of a concatenation. */
  lemma DropAppend<T>(a: seq<T>, b: seq<T>, k: nat)
    requires k <= |a|
    ensures (a + b)[k..] == a[k..] + b
  {
  }

  /** One step of extraction at a marker followed by a word character. */
  lemma TokensAtTag(s: string, marker: char)
    requires |s| > 1 && s[0] == marker && IsWordChar(s[1])
    ensures var w := WordRun(s[1..]);
      Tokens(s, marker) == [[marker] + Lower(w)] + Tokens(s[1 + |w|..], marker)
  {
  }

  /** A marker followed by a run of word characters is exactly one token. */
  lemma {:induction false} TokensOfOneTag(w: string, marker: char)
    requires w != [] && forall c :: c in w ==> IsWordChar(c)
    requires !IsWordChar(marker)
    ensures Tokens([marker] + w, marker) == [[marker] + Lower(w)]
  {
    var s := [marker] + w;
    assert s[1..] == w;
    WordRunAll(w);
    assert s[1 + |w|..] == [];
  }

  // ---------------------------------------------------------------------------
  // Keywords: text.lower().split(), keeping words of at least min_length
  // ---------------------------------------------------------------------------

  /** The longest prefix without whitespace. */
  function NonSpaceRun(s: string): (w: string)
    ensures |w| <= |s| && w == s[..|w|]
    ensures forall c :: c in w ==> !IsSpace(c)
    ensures |w| == |s| || IsSpace(s[|w|])
    ensures s != [] && !IsSpace(s[0]) ==> |w| >= 1
  {
    if s != [] && !IsSpace(s[0]) then [s[0]] + NonSpaceRun(s[1..]) else []
  }

  /** A word as `str.split()` returns it. */
  predicate IsWord(w: string) {
    w != [] && forall c :: c in w ==> !IsSpace(c)
  }

  /** `str.split()` with no separator. */
  function Words(s: string): (ws: seq<string>)
    ensures forall w :: w in ws ==> IsWord(w)
    decreases |s|
  {
    var t := TrimLeft(s);
    if t == [] then []
    else
      var w := NonSpaceRun(t);
      [w] + Words(t[|w|..])
  }

  /** `' '.join(ws)`. */
  function JoinSpaces(ws: seq<string>): string {
    if ws == [] then []
    else if |ws| == 1 then ws[0]
    else ws[0] + " " + JoinSpaces(ws[1..])
  }

  lemma {:induction false} NonSpaceRunAppend(w: string, rest: string)
    requires IsWord(w)
    requires rest == [] || IsSpace(rest[0])
    ensures NonSpaceRun(w + rest) == w
    decreases |w|
  {
    assert (w + rest)[0] == w[0];
    if |w| > 1 {
      assert (w + rest)[1..] == w[1..] + rest;
      assert forall c :: c in w[1..] ==> c in w;
      NonSpaceRunAppend(w[1..], rest);
      assert w == [w[0]] + w[1..];
    } else {
      assert (w + rest)[1..] == rest;
      assert w == [w[0]];
    }
  }

  lemma {:induction false} WordsSingle(w: string)
    requires IsWord(w)
    ensures Words(w) == [w]
  {
    assert w + [] == w;
    NonSpaceRunAppend(w, []);
    assert w[0] in w;
    assert TrimLeft(w) == w;
    assert w[|w|..] == [];
  }

  lemma {:induction false} WordsCons(w: string, rest: string)
    requires IsWord(w)
    requires rest == [] || !IsSpace(rest[0])
    ensures Words(w + (" " + rest)) == [w] + Words(rest)
  {
    var s := w + (" " + rest);
    assert w[0] in w;
    assert s[0] == w[0];
    assert TrimLeft(s) == s;
    NonSpaceRunAppend(w, " " + rest);
    assert s[|w|..] == " " + rest;
    assert TrimLeft(" " + rest) == TrimLeft(rest);
    assert TrimLeft(rest) == rest;
  }

  lemma {:induction false} WordsOfJoinStep(ws: seq<string>)
    requires forall k :: 0 <= k < |ws| ==> IsWord(ws[k])
    requires |ws| > 1
    requires Words(JoinSpaces(ws[1..])) == ws[1..]
    ensures Words(JoinSpaces(ws)) == ws
  {
    var tail := ws[1..];
    var rest := JoinSpaces(tail);
    assert JoinSpaces(ws) == ws[0] + (" " + rest);
    assert IsWord(ws[0]) && IsWord(ws[1]) && tail[0] == ws[1];
    JoinStartsWithWord(tail);
    WordsCons(ws[0], rest);
    assert ws == [ws[0]] + tail;
  }

  /** Splitting words joined by single blanks gives the words back. */
  lemma {:induction false} WordsOfJoin(ws: seq<string>)
    requires forall k :: 0 <= k < |ws| ==> IsWord(ws[k])
    ensures Words(JoinSpaces(ws)) == ws
    decreases |ws|
  {
    if ws == [] {
    } else if |ws| == 1 {
      WordsSingle(ws[0]);
    } else {
      WordsOfJoin(ws[1..]);
      WordsOfJoinStep(ws);
    }
  }

  lemma {:induction false} JoinStartsWithWord(ws: seq<string>)
    requires ws != [] && IsWord(ws[0])
    ensures var j := JoinSpaces(ws); j != [] && j[0] == ws[0][0] && !IsSpace(j[0])
  {
    assert ws[0][0] in ws[0];
  }

  /** Every character of joined words is a blank or a character of some word. */
  lemma {:induction false} JoinChars(ws: seq<string>, c: char)
    requires c in JoinSpaces(ws)
    ensures c == ' ' || exists k :: 0 <= k < |ws| && c in ws[k]
    decreases |ws|
  {
    if |ws| > 1 {
      var rest := JoinSpaces(ws[1..]);
      if c !in ws[0] && c != ' ' {
        assert c in rest;
        JoinChars(ws[1..], c);
        var k :| 0 <= k < |ws[1..]| && c in ws[1..][k];
        assert c in ws[k + 1];
      }
    }
  }

  /** The words of at least `n` characters, in order. */
  function LongWords(ws: seq<string>, n: int): (r: seq<string>)
    ensures forall k :: 0 <= k < |r| ==> |r[k]| >= n && r[k] in ws
    ensures forall w :: w in ws && |w| >= n ==> w in r
    ensures |r| <= |ws|
    ensures (forall k :: 0 <= k < |ws| ==> |ws[k]| >= n) ==> r == ws
  {
    if ws == [] then []
    else
      var rest := LongWords(ws[1..], n);
      assert ws == [ws[0]] + ws[1..];
      assert forall w :: w in ws ==> w == ws[0] || w in ws[1..];
      assert (forall k :: 0 <= k < |ws| ==> |ws[k]| >= n) ==>
        forall k :: 0 <= k < |ws[1..]| ==> |ws[1..][k]| >= n by {
        forall k | 0 <= k < |ws[1..]| ensures ws[1..][k] == ws[k + 1] {}
      }
      if |ws[0]| >= n then [ws[0]] + rest
      else rest
  }

  /** One step of the filter. */
  lemma LongWordsCons(x: string, t: seq<string>, n: int)
    ensures LongWords([x] + t, n) == if |x| >= n then [x] + LongWords(t, n) else LongWords(t, n)
  {
    assert ([x] + t)[1..] == t;
  }

  lemma ConsAssoc<T>(x: T, a: seq<T>, b: seq<T>)
    ensures [x] + (a + b) == ([x] + a) + b
  {
  }

  /**
   * The filter keeps the order of the words: filtering a concatenation
   * concatenates the filtered parts, and one word is kept exactly when it is
   * long enough.
   */
  lemma {:induction false} LongWordsAppend(a: seq<string>, b: seq<string>, n: int)
    ensures LongWords(a + b, n) == LongWords(a, n) + LongWords(b, n)
    ensures |a| == 1 ==> LongWords(a, n) == (if |a[0]| >= n then a else [])
    decreases |a|
  {
    if a == [] {
      assert a + b == b;
    } else {
      var x, t := a[0], a[1..];
      assert a == [x] + t;
      assert a + b == [x] + (t + b);
      LongWordsCons(x, t + b, n);
      LongWordsCons(x, t, n);
      LongWordsAppend(t, b, n);
      ConsAssoc(x, LongWords(t, n), LongWords(b, n));
      if |a| == 1 {
        assert t == [];
      }
    }
  }

  /**
   * `extract_keywords`: the words of the lower-cased text that are at least
   * `minLength` long, in order; non-string input gives no keywords.
   */
  function ExtractKeywords(t: Option<string>, minLength: int): (r: seq<string>)
    ensures forall k :: 0 <= k < |r| ==> |r[k]| >= minLength && IsWord(r[k])
    ensures forall k :: 0 <= k < |r| ==> forall c :: c in r[k] ==> !IsUpper(c)
    ensures t.Some? ==> forall w :: w in Words(Lower(t.value)) && |w| >= minLength ==> w in r
    ensures t.None? ==> r == []
  {
    match t
    case None => []
    case Some(s) =>
      WordsLower(s);
      LongWords(Words(Lower(s)), minLength)
  }

  /** The words of lower-cased text have no upper-case letter. */
  lemma WordsLower(s: string)
    ensures forall w :: w in Words(Lower(s)) ==> forall c :: c in w ==> !IsUpper(c)
  {
    forall w, c | w in Words(Lower(s)) && c in w ensures !IsUpper(c) {
      WordsChars(Lower(s), w, c);
    }
  }

  lemma {:induction false} WordsChars(s: string, w: string, c: char)
    requires w in Words(s) && c in w
    ensures c in s
    decreases |s|
  {
    var t := TrimLeft(s);
    assert t != [];
    var w0 := NonSpaceRun(t);
    var u := t[|w0|..];
    assert Words(s) == [w0] + Words(u);
    if w == w0 {
      assert c in t;
    } else {
      WordsChars(u, w, c);
      assert c in t;
    }
  }

  /**
   * The keywords of lower-case words joined by blanks are the words at least
   * `minLength` long, in order: the shorter ones are dropped.
   */
  lemma {:induction false} KeywordsOfJoin(ws: seq<string>, minLength: int)
    requires forall k :: 0 <= k < |ws| ==> IsWord(ws[k])
    requires forall k :: 0 <= k < |ws| ==> forall c :: c in ws[k] ==> !IsUpper(c)
    ensures ExtractKeywords(Some(JoinSpaces(ws)), minLength) == LongWords(ws, minLength)
  {
    var j := JoinSpaces(ws);
    forall c | c in j ensures !IsUpper(c) {
      JoinChars(ws, c);
    }
    LowerUnchanged(j);
    WordsOfJoin(ws);
  }

  /** When every lower-case word is long enough, the keywords are all the words. */
  lemma KeywordsOfLongWords(ws: seq<string>, minLength: int)
    requires forall k :: 0 <= k < |ws| ==> IsWord(ws[k]) && |ws[k]| >= minLength
    requires forall k :: 0 <= k < |ws| ==> forall c :: c in ws[k] ==> !IsUpper(c)
    ensures ExtractKeywords(Some(JoinSpaces(ws)), minLength) == ws
  {
    KeywordsOfJoin(ws, minLength);
  }

  /** The filter drops a short word between two long ones. */
  lemma LongWordsDropShort(x: string, y: string, z: string, n: int)
    requires |x| >= n && |z| >= n && |y| < n
    ensures LongWords([x, y, z], n) == [x, z]
  {
    assert [x, y, z] == [x] + [y, z] && [y, z] == [y] + [z] && [z] == [z] + [];
    LongWordsCons(x, [y, z], n);
    LongWordsCons(y, [z], n);
    LongWordsCons(z, [], n);
  }

  /** A short word between two long ones is dropped and the long ones are kept, in order. */
  lemma KeywordsDropShort(x: string, y: string, z: string, minLength: int)
    requires IsWord(x) && IsWord(y) && IsWord(z)
    requires forall c :: c in x ==> !IsUpper(c)
    requires forall c :: c in y ==> !IsUpper(c)
    requires forall c :: c in z ==> !IsUpper(c)
    requires |x| >= minLength && |z| >= minLength && |y| < minLength
    ensures ExtractKeywords(Some(JoinSpaces([x, y, z])), minLength) == [x, z]
  {
    KeywordsOfJoin([x, y, z], minLength);
    LongWordsDropShort(x, y, z, minLength);
  }
}
