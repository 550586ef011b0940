/** The exporter's treatment of free text: collapsed, cut to a length, and cleaned for XML. Texts are
    code points, lone surrogates included. */
module XmlText {
  import opened Wrappers

  type CodePoint = c: int | 0 <= c <= 0x10FFFF
  type Text = seq<CodePoint>

  const SPACE: CodePoint := 0x20
  const NEWLINE: CodePoint := 0x0A
  const ELLIPSIS: CodePoint := 0x2026

  function Chars(s: string): (t: Text)
    ensures |t| == |s| && forall i | 0 <= i < |s| :: t[i] == s[i] as int
  {
    seq(|s|, i requires 0 <= i < |s| => s[i] as int)
  }

  predicate IsSpace(c: CodePoint) {
    || 0x09 <= c <= 0x0D || 0x1C <= c <= 0x20 || c == 0x85 || c == 0xA0 || c == 0x1680
    || 0x2000 <= c <= 0x200A || c == 0x2028 || c == 0x2029 || c == 0x202F || c == 0x205F || c == 0x3000
  }

  // ------------------------------------------------------------------ cleaning

  /** Char in section 2.2 of XML 1.0. */
  predicate IsXmlChar(c: CodePoint) {
    || c == 0x9 || c == 0xA || c == 0xD || 0x20 <= c <= 0xD7FF || 0xE000 <= c <= 0xFFFD || 0x10000 <= c
  }

  predicate IsIllegal(c: CodePoint) {
    || c <= 0x08 || c == 0x0B || c == 0x0C || 0x0E <= c <= 0x1F || 0xD800 <= c <= 0xDFFF || c == 0xFFFE || c == 0xFFFF
  }

  predicate IsXmlText(t: Text) {
    forall i | 0 <= i < |t| :: IsXmlChar(t[i])
  }

  function XmlSafe(t: Text): Text {
    SafeTo(t, |t|)
  }

  /** The first `n` characters without the illegal ones. */
  function SafeTo(t: Text, n: nat): Text
    requires n <= |t|
  {
    if n == 0 then [] else if IsIllegal(t[n - 1]) then SafeTo(t, n - 1) else SafeTo(t, n - 1) + [t[n - 1]]
  }

  lemma {:induction false} SafeToCleans(t: Text, n: nat)
    requires n <= |t|
    ensures IsXmlText(SafeTo(t, n)) && |SafeTo(t, n)| <= n
    ensures SafeTo(t, n) == t[..n] <==> IsXmlText(t[..n])
  {
    if n > 0 {
      SafeToCleans(t, n - 1);
      assert t[..n] == t[..n - 1] + [t[n - 1]];
      assert IsXmlText(t[..n]) <==> IsXmlText(t[..n - 1]) && IsXmlChar(t[n - 1]);
    }
  }

  /** What cleaning leaves is XML text, never longer; text that was XML text is left alone. */
  lemma XmlSafeCleans(t: Text)
    ensures IsXmlText(XmlSafe(t)) && |XmlSafe(t)| <= |t|
    ensures XmlSafe(t) == t <==> IsXmlText(t)
  {
    SafeToCleans(t, |t|);
    assert t[..|t|] == t;
  }

  lemma {:induction false} SafeToPrefix(a: Text, b: Text, n: nat)
    requires n <= |a|
    ensures SafeTo(a + b, n) == SafeTo(a, n)
  {
    if n > 0 {
      SafeToPrefix(a, b, n - 1);
    }
  }

  lemma {:induction false} SafeToConcat(a: Text, b: Text, m: nat)
    requires m <= |b|
    ensures SafeTo(a + b, |a| + m) == XmlSafe(a) + SafeTo(b, m)
  {
    if m == 0 {
      SafeToPrefix(a, b, |a|);
    } else {
      SafeToConcat(a, b, m - 1);
      assert (a + b)[|a| + m - 1] == b[m - 1];
    }
  }

  lemma XmlSafeConcat(a: Text, b: Text)
    ensures XmlSafe(a + b) == XmlSafe(a) + XmlSafe(b)
  {
    SafeToConcat(a, b, |b|);
  }

  /** So cleaning goes character by character: an XML character stays, any other goes. */
  lemma XmlSafeOfOne(c: CodePoint)
    ensures XmlSafe([c]) == if IsXmlChar(c) then [c] else []
  {
    assert SafeTo([c], 0) == [];
  }

  // ---------------------------------------------------------------- collapsing

  /** The first place from `i` on that is no white space. */
  function SkipFrom(t: Text, i: nat): (b: nat)
    requires i <= |t|
    ensures i <= b <= |t| && (b < |t| ==> !IsSpace(t[b])) && forall j | i <= j < b :: IsSpace(t[j])
    decreases |t| - i
  {
    if i < |t| && IsSpace(t[i]) then SkipFrom(t, i + 1) else i
  }

  /** The words of the first `n` characters with single spaces between: splitting at white space and
      joining again. */
  function CollapseTo(t: Text, n: nat): Text
    requires n <= |t|
  {
    if n == 0 then []
    else if IsSpace(t[n - 1]) then CollapseTo(t, n - 1)
    else Put(CollapseTo(t, n - 1), n >= 2 && IsSpace(t[n - 2]), t[n - 1])
  }

  /** The next letter, after a space when white space came before it. */
  function Put(before: Text, gap: bool, c: CodePoint): Text {
    if before != [] && gap then before + [SPACE] + [c] else before + [c]
  }

  function Collapse(t: Text): Text {
    CollapseTo(t, |t|)
  }

  /** White space is single spaces, none at either end. */
  predicate IsCollapsed(t: Text) {
    && (t != [] ==> !IsSpace(t[0]) && !IsSpace(t[|t| - 1]))
    && forall i | 0 < i < |t| && IsSpace(t[i]) :: t[i] == SPACE && !IsSpace(t[i - 1])
  }

  lemma PutIsCollapsed(before: Text, gap: bool, c: CodePoint)
    requires IsCollapsed(before) && !IsSpace(c)
    ensures IsCollapsed(Put(before, gap, c))
  {
  }

  lemma {:induction false} CollapseToIsCollapsed(t: Text, n: nat)
    requires n <= |t|
    ensures IsCollapsed(CollapseTo(t, n))
  {
    if n > 0 {
      CollapseToIsCollapsed(t, n - 1);
      if !IsSpace(t[n - 1]) {
        PutIsCollapsed(CollapseTo(t, n - 1), n >= 2 && IsSpace(t[n - 2]), t[n - 1]);
      }
    }
  }

  /** A collapsed text is left as it is; its last space waits for the next letter. */
  lemma {:induction false} CollapsedToItself(t: Text, n: nat)
    requires n <= |t| && IsCollapsed(t)
    ensures CollapseTo(t, n) == t[..if n > 0 && IsSpace(t[n - 1]) then n - 1 else n]
  {
    if n > 0 {
      CollapsedToItself(t, n - 1);
    }
  }

  /** Collapsing gives collapsed texts, and those it leaves alone. */
  lemma CollapseIsCollapsed(t: Text)
    ensures IsCollapsed(Collapse(t))
    ensures Collapse(t) == t <==> IsCollapsed(t)
  {
    CollapseToIsCollapsed(t, |t|);
    if IsCollapsed(t) {
      CollapsedToItself(t, |t|);
      assert t[..|t|] == t;
    }
  }

  /** The first `n` characters without white space. */
  function LettersTo(t: Text, n: nat): Text
    requires n <= |t|
  {
    if n == 0 then [] else if IsSpace(t[n - 1]) then LettersTo(t, n - 1) else LettersTo(t, n - 1) + [t[n - 1]]
  }

  function Letters(t: Text): Text {
    LettersTo(t, |t|)
  }

  lemma {:induction false} LettersOfPrefix(a: Text, b: Text, n: nat)
    requires n <= |a|
    ensures LettersTo(a + b, n) == LettersTo(a, n)
  {
    if n > 0 {
      LettersOfPrefix(a, b, n - 1);
    }
  }

  lemma LettersAppend(t: Text, c: CodePoint)
    ensures Letters(t + [c]) == if IsSpace(c) then Letters(t) else Letters(t) + [c]
  {
    LettersOfPrefix(t, [c], |t|);
  }

  lemma PutAddsTheLetter(before: Text, gap: bool, c: CodePoint)
    requires !IsSpace(c)
    ensures Letters(Put(before, gap, c)) == Letters(before) + [c]
  {
    LettersAppend(before, SPACE);
    LettersAppend(before + [SPACE], c);
    LettersAppend(before, c);
  }

  lemma {:induction false} CollapseToKeepsLetters(t: Text, n: nat)
    requires n <= |t|
    ensures Letters(CollapseTo(t, n)) == LettersTo(t, n)
  {
    if n > 0 {
      CollapseToKeepsLetters(t, n - 1);
      if !IsSpace(t[n - 1]) {
        PutAddsTheLetter(CollapseTo(t, n - 1), n >= 2 && IsSpace(t[n - 2]), t[n - 1]);
      }
    }
  }

  /** Collapsing loses white space and nothing else. */
  lemma CollapseKeepsLetters(t: Text)
    ensures Letters(Collapse(t)) == Letters(t)
  {
    CollapseToKeepsLetters(t, |t|);
  }

  /** The words of the first `n` characters: what `split` gives. */
  function WordsTo(t: Text, n: nat): (words: seq<Text>)
    requires n <= |t|
    ensures n > 0 && !IsSpace(t[n - 1]) ==> words != []
  {
    if n == 0 then []
    else if IsSpace(t[n - 1]) then WordsTo(t, n - 1)
    else if n >= 2 && !IsSpace(t[n - 2]) then
      var words := WordsTo(t, n - 1);
      words[..|words| - 1] + [words[|words| - 1] + [t[n - 1]]]
    else WordsTo(t, n - 1) + [[t[n - 1]]]
  }

  /** Words joined by single spaces. */
  function Joined(words: seq<Text>): Text {
    if words == [] then []
    else if |words| == 1 then words[0]
    else Joined(words[..|words| - 1]) + [SPACE] + words[|words| - 1]
  }

  lemma JoinedLonger(words: seq<Text>, c: CodePoint)
    requires words != []
    ensures Joined(words[..|words| - 1] + [words[|words| - 1] + [c]]) == Joined(words) + [c]
  {
    var init, last := words[..|words| - 1], words[|words| - 1];
    var longer := init + [last + [c]];
    assert longer[..|longer| - 1] == init && longer[|longer| - 1] == last + [c];
    if init != [] {
      assert Joined(longer) == Joined(init) + [SPACE] + (last + [c]);
    }
  }

  lemma JoinedOneMore(words: seq<Text>, word: Text)
    ensures Joined(words + [word]) == if words == [] then word else Joined(words) + [SPACE] + word
  {
    assert (words + [word])[..|words|] == words;
  }

  lemma {:induction false} WordsAreThere(t: Text, n: nat)
    requires n <= |t|
    ensures WordsTo(t, n) == [] <==> CollapseTo(t, n) == []
  {
    if n > 0 {
      WordsAreThere(t, n - 1);
    }
  }

  lemma {:induction false} CollapseToJoins(t: Text, n: nat)
    requires n <= |t|
    ensures CollapseTo(t, n) == Joined(WordsTo(t, n))
  {
    if n > 0 {
      CollapseToJoins(t, n - 1);
      WordsAreThere(t, n - 1);
      if !IsSpace(t[n - 1]) {
        if n >= 2 && !IsSpace(t[n - 2]) {
          JoinedLonger(WordsTo(t, n - 1), t[n - 1]);
        } else {
          JoinedOneMore(WordsTo(t, n - 1), [t[n - 1]]);
          if n == 1 {
            assert WordsTo(t, 0) == [];
          }
        }
      }
    }
  }

  /** Collapsing joins the words of the text, and no others, by single spaces. */
  lemma CollapseJoinsTheWords(t: Text)
    ensures Collapse(t) == Joined(WordsTo(t, |t|))
  {
    CollapseToJoins(t, |t|);
  }

  // ---------------------------------------------------------- fitting a length

  /** The place behind the last of the first `n` characters that is no white space. */
  function TextEnd(t: Text, n: nat): (e: nat)
    requires n <= |t|
    ensures e <= n && (e > 0 ==> !IsSpace(t[e - 1])) && forall j | e <= j < n :: IsSpace(t[j])
  {
    if n > 0 && IsSpace(t[n - 1]) then TextEnd(t, n - 1) else n
  }

  function StripRight(t: Text): (r: Text)
    ensures |r| <= |t|
  {
    t[..TextEnd(t, |t|)]
  }

  function Strip(t: Text): Text {
    StripRight(t[SkipFrom(t, 0)..])
  }

  /** Collapsed and cut to `limit`, the cut marked; nothing when no text is left. */
  function Clip(value: Option<Text>, limit: nat): Option<Text>
    requires limit > 0
  {
    match value
    case None => None
    case Some(t) =>
      var text := Collapse(t);
      if text == [] then None
      else if |text| <= limit then Some(text)
      else Some(StripRight(text[..limit - 1]) + [ELLIPSIS])
  }

  /** An identifier, stripped, if it fits; never cut. */
  function Fits(value: Option<Text>, limit: nat): Option<Text> {
    match value
    case None => None
    case Some(t) =>
      var text := Strip(t);
      if text == [] || |text| > limit then None else Some(text)
  }

  lemma ClippedFits(value: Option<Text>, limit: nat)
    requires limit > 0
    ensures Clip(value, limit).Some? <==> value.Some? && Letters(value.value) != []
    ensures Clip(value, limit).Some? ==> 0 < |Clip(value, limit).value| <= limit
  {
    if value.Some? {
      CollapseKeepsLetters(value.value);
      CollapseIsCollapsed(value.value);
      LettersOfCollapsed(Collapse(value.value));
    }
  }

  /** It is the collapsed text, or a mark, U+2026, after as much of its beginning as fits: what is left out of the
      first `limit - 1` characters is white space. */
  lemma ClippedIsTheBeginning(t: Text, limit: nat)
    requires limit > 0 && Collapse(t) != []
    ensures var text := Collapse(t);
      var r := Clip(Some(t), limit).value;
      if |text| <= limit then r == text
      else
        && r[|r| - 1] == 0x2026 && r[..|r| - 1] <= text && (|r| > 1 ==> !IsSpace(r[|r| - 2]))
        && forall i | |r| - 1 <= i < limit - 1 :: IsSpace(text[i])
  {
    var text := Collapse(t);
    if |text| > limit {
      var cut := text[..limit - 1];
      var r := StripRight(cut) + [ELLIPSIS];
      assert r[..|r| - 1] == StripRight(cut) == text[..TextEnd(cut, |cut|)];
      forall i | |r| - 1 <= i < limit - 1 ensures IsSpace(text[i]) {
        assert cut[i] == text[i];
      }
    }
  }

  /** An identifier is never cut: what fits has all its letters, and what does not is left out. */
  lemma FitsIsNeverCut(t: Text, limit: nat)
    ensures var r := Fits(Some(t), limit);
      && (r.Some? ==> 0 < |r.value| <= limit && Letters(r.value) == Letters(t)
                      && !IsSpace(r.value[0]) && !IsSpace(r.value[|r.value| - 1]))
      && (r.None? ==> |Strip(t)| > limit || Letters(t) == [])
  {
    StripIsTrimmed(t);
  }

  /** White space, by its code points. */
  lemma SpacesByCode(c: CodePoint)
    ensures IsSpace(c) <==> 9 <= c <= 13 || 28 <= c <= 32 || c == 133 || c == 160 || c == 5760 || 8192 <= c <= 8202
                            || c == 8232 || c == 8233 || c == 8239 || c == 8287 || c == 12288
  {
  }

  /** Stripping leaves no white space at either end, and every letter. */
  lemma StripIsTrimmed(t: Text)
    ensures var r := Strip(t);
      (r != [] ==> !IsSpace(r[0]) && !IsSpace(r[|r| - 1])) && Letters(r) == Letters(t)
  {
    var b := SkipFrom(t, 0);
    var s := t[b..];
    StripRightKeepsLetters(s, |s|);
    LettersFrom(t, b, |s|);
    LettersSkip(t, b);
    if Strip(t) != [] {
      assert s[0] == t[b] && Strip(t)[0] == s[0];
    }
  }

  /** A character that stripping keeps: something other than white space stands at or before it, and at
      or after it. */
  predicate Kept(t: Text, i: nat)
    requires i < |t|
  {
    (exists j | 0 <= j <= i :: !IsSpace(t[j])) && (exists k | i <= k < |t| :: !IsSpace(t[k]))
  }

  lemma StripIsTheKept(t: Text)
    ensures var b := SkipFrom(t, 0);
            var e := b + |Strip(t)|;
            e <= |t| && Strip(t) == t[b..e] && forall i | 0 <= i < |t| :: Kept(t, i) <==> b <= i < e
  {
    var b := SkipFrom(t, 0);
    var e := b + TextEnd(t[b..], |t| - b);
    forall i | 0 <= i < |t| ensures Kept(t, i) <==> b <= i < e {
      if b <= i < e {
        assert !IsSpace(t[b]) && !IsSpace(t[b..][e - b - 1]);
        assert t[b..][e - b - 1] == t[e - 1];
      } else if i >= e {
        forall k | i <= k < |t| ensures IsSpace(t[k]) {
          assert t[k] == t[b..][k - b];
        }
      }
    }
  }

  /** A stripped text is XML text exactly when every character it keeps is an XML character. */
  lemma StrippedIsXmlTextIff(t: Text)
    ensures IsXmlText(Strip(t)) <==> forall i | 0 <= i < |t| && Kept(t, i) :: IsXmlChar(t[i])
  {
    StripIsTheKept(t);
    var b := SkipFrom(t, 0);
    forall i | 0 <= i < |Strip(t)| ensures Strip(t)[i] == t[b + i] {
    }
    if IsXmlText(Strip(t)) {
      forall i | 0 <= i < |t| && Kept(t, i) ensures IsXmlChar(t[i]) {
        assert t[i] == Strip(t)[i - b];
      }
    } else {
      var i :| 0 <= i < |Strip(t)| && !IsXmlChar(Strip(t)[i]);
      assert Kept(t, b + i) && !IsXmlChar(t[b + i]);
    }
  }

  lemma {:induction false} LettersSkip(t: Text, b: nat)
    requires b <= |t| && forall j | 0 <= j < b :: IsSpace(t[j])
    ensures LettersTo(t, b) == []
  {
    if b > 0 {
      LettersSkip(t, b - 1);
    }
  }

  lemma {:induction false} LettersFrom(t: Text, b: nat, m: nat)
    requires b + m <= |t|
    ensures LettersTo(t, b + m) == LettersTo(t, b) + LettersTo(t[b..], m)
  {
    if m > 0 {
      LettersFrom(t, b, m - 1);
      assert t[b..][m - 1] == t[b + m - 1];
    }
  }

  lemma {:induction false} StripRightKeepsLetters(s: Text, n: nat)
    requires n <= |s|
    ensures Letters(s[..TextEnd(s, n)]) == LettersTo(s, n)
  {
    if n > 0 && IsSpace(s[n - 1]) {
      StripRightKeepsLetters(s, n - 1);
    } else {
      LettersOfPrefix(s[..n], s[n..], n);
      assert s[..n] + s[n..] == s;
    }
  }

  lemma LettersOfCollapsed(t: Text)
    requires IsCollapsed(t)
    ensures Letters(t) == [] <==> t == []
  {
    if t != [] {
      assert LettersTo(t, |t|) == LettersTo(t, |t| - 1) + [t[|t| - 1]];
    }
  }

  // -------------------------------------------------------------------- lines

  /** The text up to its first line feed. */
  function FirstLine(t: Text): Text {
    t[..LineEnd(t, 0)]
  }

  function LineEnd(t: Text, i: nat): (e: nat)
    requires i <= |t|
    ensures i <= e <= |t| && (e < |t| ==> t[e] == NEWLINE) && forall j | i <= j < e :: t[j] != NEWLINE
    decreases |t| - i
  {
    if i < |t| && t[i] != NEWLINE then LineEnd(t, i + 1) else i
  }

  predicate OneLine(t: Text) {
    forall i | 0 <= i < |t| :: t[i] != NEWLINE
  }

  lemma FirstLineIs(line: Text, rest: Text)
    requires OneLine(line) && (rest != [] ==> rest[0] == NEWLINE)
    ensures FirstLine(line + rest) == line
  {
    var t := line + rest;
    assert forall i | 0 <= i < |line| :: t[i] == line[i];
    assert rest != [] ==> t[|line|] == rest[0];
    assert LineEnd(t, 0) == |line|;
  }

  lemma {:induction false} SafeToKeepsOneLine(t: Text, n: nat)
    requires n <= |t| && OneLine(t)
    ensures OneLine(SafeTo(t, n))
  {
    if n > 0 {
      SafeToKeepsOneLine(t, n - 1);
    }
  }
}
