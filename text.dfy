/** Sentence segmentation of an assistant reply (`speakResponse`) and the
    per-sentence clean-up applied before synthesis (`speakSentence`). */
module Text {

  /** A character of the class `[.!?]` on which a reply is split. */
  predicate IsTerminator(c: char) {
    c == '.' || c == '!' || c == '?'
  }

  /** A character matched by the regular-expression class `\s` and removed
      by `String.prototype.trim`: the ECMAScript WhiteSpace and
      LineTerminator code points. */
  predicate IsSpace(c: char) {
    c == '\t' || c == '\n' || c == '\U{000B}' || c == '\U{000C}' || c == '\r' || c == ' '
    || c == '\U{00A0}' || c == '\U{1680}' || ('\U{2000}' <= c && c <= '\U{200A}')
    || c == '\U{2028}' || c == '\U{2029}' || c == '\U{202F}' || c == '\U{205F}'
    || c == '\U{3000}' || c == '\U{FEFF}'
  }

  predicate NoTerminator(s: string) {
    forall i | 0 <= i < |s| :: !IsTerminator(s[i])
  }

  /** Whitespace only (the empty string included). */
  predicate IsBlank(s: string) {
    forall i | 0 <= i < |s| :: IsSpace(s[i])
  }

  // ---------------------------------------------------------------------
  // trim()

  /** The first position at or after `i` that holds no whitespace (`|s|` if none). */
  function SkipSpaces(s: string, i: nat): (n: nat)
    requires i <= |s|
    ensures i <= n <= |s|
    ensures forall j | i <= j < n :: IsSpace(s[j])
    ensures n < |s| ==> !IsSpace(s[n])
    decreases |s| - i
  {
    if i < |s| && IsSpace(s[i]) then SkipSpaces(s, i + 1) else i
  }

  /** The position just past the last non-whitespace character before `j` (0 if none). */
  function BackOverSpaces(s: string, j: nat): (n: nat)
    requires j <= |s|
    ensures n <= j
    ensures forall k | n <= k < j :: IsSpace(s[k])
    ensures n > 0 ==> !IsSpace(s[n - 1])
    decreases j
  {
    if j > 0 && IsSpace(s[j - 1]) then BackOverSpaces(s, j - 1) else j
  }

  /** `s.trim()`: `s` without the whitespace at either end. The result is
      the stretch of `s` that starts at offset `i`, the first position
      without whitespace; what lies before and after it is whitespace. */
  function Trim(s: string): (t: string)
    ensures |t| <= |s|
    ensures var i := SkipSpaces(s, 0);
            i + |t| <= |s| && t == s[i..i + |t|] && IsBlank(s[..i]) && IsBlank(s[i + |t|..])
    ensures t == [] <==> IsBlank(s)
    ensures t == [] || (!IsSpace(t[0]) && !IsSpace(t[|t| - 1]))
  {
    var i := SkipSpaces(s, 0);
    if i == |s| then [] else s[i..BackOverSpaces(s, |s|)]
  }

  /** Trimming only removes characters, so it adds no terminator. */
  lemma TrimNoTerminator(s: string)
    requires NoTerminator(s)
    ensures NoTerminator(Trim(s))
  {
    var t, i := Trim(s), SkipSpaces(s, 0);
    assert forall j | 0 <= j < |t| :: t[j] == s[i + j];
  }

  /** A string without whitespace at its ends is its own trim. */
  lemma TrimUnchanged(s: string)
    requires s == [] || (!IsSpace(s[0]) && !IsSpace(s[|s| - 1]))
    ensures Trim(s) == s
  {
  }

  // ---------------------------------------------------------------------
  // replace(/[...]+/g, r)

  /** The character classes whose runs a clean-up step rewrites, each with
      the one character that replaces a whole run. */
  datatype CharClass = Bangs | Dots | Blanks | Terminators {

    predicate Has(c: char) {
      match this
      case Bangs => c == '!' || c == '?'
      case Dots => c == '.'
      case Blanks => IsSpace(c)
      case Terminators => IsTerminator(c)
    }

    function Replacement(): char {
      match this
      case Blanks => ' '
      case _ => '.'
    }
  }

  function Rewrite(c: char, k: CharClass): char {
    if k.Has(c) then k.Replacement() else c
  }

  /** `s.replace(/[k]+/g, r)`: every maximal run of characters of class `k`
      becomes a single `k.Replacement()`. A class character that is followed
      by another one is dropped, and the last one of its run is replaced. */
  function Collapse(s: string, k: CharClass): (t: string)
    ensures |t| <= |s|
    ensures |t| == 0 <==> |s| == 0
    decreases |s|
  {
    if |s| == 0 then []
    else if |s| > 1 && k.Has(s[0]) && k.Has(s[1]) then Collapse(s[1..], k)
    else [Rewrite(s[0], k)] + Collapse(s[1..], k)
  }

  /** A collapse starts with the first character rewritten and ends with the
      last one rewritten. */
  lemma {:induction false} CollapseEnds(s: string, k: CharClass)
    ensures var t := Collapse(s, k);
            |s| > 0 ==> t[0] == Rewrite(s[0], k) && t[|t| - 1] == Rewrite(s[|s| - 1], k)
    decreases |s|
  {
    if |s| > 1 {
      CollapseEnds(s[1..], k);
      assert s[1..][0] == s[1] && s[1..][|s| - 2] == s[|s| - 1];
    }
  }

  /** No two neighbouring characters both belong to class `k`. */
  predicate NoAdjacent(s: string, k: CharClass) {
    forall i | 0 <= i < |s| - 1 :: !(k.Has(s[i]) && k.Has(s[i + 1]))
  }

  /** What survives a collapse: replacements and characters of `s` outside the class. */
  lemma {:induction false} CollapseChars(s: string, k: CharClass)
    ensures forall i | 0 <= i < |Collapse(s, k)| ::
              Collapse(s, k)[i] == k.Replacement() || (!k.Has(Collapse(s, k)[i]) && Collapse(s, k)[i] in s)
    decreases |s|
  {
    if |s| > 0 {
      CollapseChars(s[1..], k);
    }
  }

  /** When the replacement belongs to the class, no run of it is left. */
  lemma {:induction false} CollapseLeavesNoRun(s: string, k: CharClass)
    requires k.Has(k.Replacement())
    ensures NoAdjacent(Collapse(s, k), k)
    decreases |s|
  {
    if |s| > 1 {
      CollapseLeavesNoRun(s[1..], k);
    }
  }

  /** Collapsing class `k` does not join up characters of another class `q`. */
  lemma {:induction false} CollapseKeepsApart(s: string, k: CharClass, q: CharClass)
    requires forall c :: q.Has(c) ==> !k.Has(c)
    requires !q.Has(k.Replacement())
    requires NoAdjacent(s, q)
    ensures NoAdjacent(Collapse(s, k), q)
    decreases |s|
  {
    if |s| > 1 {
      CollapseEnds(s[1..], k);
      assert NoAdjacent(s[1..], q) by {
        forall i | 0 <= i < |s| - 2 ensures !(q.Has(s[1..][i]) && q.Has(s[1..][i + 1])) {
          assert s[1..][i] == s[i + 1] && s[1..][i + 1] == s[i + 2];
        }
      }
      CollapseKeepsApart(s[1..], k, q);
    }
  }

  /** A string already in collapsed form is left as it is. */
  lemma {:induction false} CollapseFixpoint(s: string, k: CharClass)
    requires NoAdjacent(s, k)
    requires forall i | 0 <= i < |s| :: k.Has(s[i]) ==> s[i] == k.Replacement()
    ensures Collapse(s, k) == s
    decreases |s|
  {
    if |s| > 0 {
      assert NoAdjacent(s[1..], k) by {
        forall i | 0 <= i < |s| - 2 ensures !(k.Has(s[1..][i]) && k.Has(s[1..][i + 1])) {
          assert s[1..][i] == s[i + 1] && s[1..][i + 1] == s[i + 2];
        }
      }
      CollapseFixpoint(s[1..], k);
      assert s == [s[0]] + s[1..];
    }
  }

  /** `s` without the characters a collapse of class `k` may produce or
      remove: the class itself and its replacement. */
  function Outside(s: string, k: CharClass): string
    decreases |s|
  {
    if s == [] then []
    else (if k.Has(s[0]) || s[0] == k.Replacement() then [] else [s[0]]) + Outside(s[1..], k)
  }

  /** A collapse keeps every other character, in order and with its
      multiplicity. */
  lemma {:induction false} CollapseOutside(s: string, k: CharClass)
    ensures Outside(Collapse(s, k), k) == Outside(s, k)
    decreases |s|
  {
    if |s| > 0 {
      CollapseOutside(s[1..], k);
      if !(|s| > 1 && k.Has(s[0]) && k.Has(s[1])) {
        var t := [Rewrite(s[0], k)] + Collapse(s[1..], k);
        assert t[1..] == Collapse(s[1..], k);
      }
    }
  }

  /** A non-empty run of class characters collapses to one replacement. */
  lemma {:induction false} CollapseRun(s: string, k: CharClass)
    requires s != [] && forall i | 0 <= i < |s| :: k.Has(s[i])
    ensures Collapse(s, k) == [k.Replacement()]
    decreases |s|
  {
    if |s| > 1 {
      CollapseRun(s[1..], k);
    }
  }

  /** The first step of a collapse: a class character followed by another
      one is dropped ... */
  lemma CollapseDrop(c: char, q: string, k: CharClass)
    requires q != [] && k.Has(c) && k.Has(q[0])
    ensures Collapse([c] + q, k) == Collapse(q, k)
  {
    assert ([c] + q)[1..] == q;
  }

  /** ... and any other character is kept, rewritten. */
  lemma CollapseKeep(c: char, q: string, k: CharClass)
    requires q == [] || !(k.Has(c) && k.Has(q[0]))
    ensures Collapse([c] + q, k) == [Rewrite(c, k)] + Collapse(q, k)
  {
    assert ([c] + q)[1..] == q;
  }

  /** Text cut where no run is split collapses piece by piece. */
  lemma {:induction false} CollapseAppend(p: string, q: string, k: CharClass)
    requires p == [] || q == [] || !(k.Has(p[|p| - 1]) && k.Has(q[0]))
    ensures Collapse(p + q, k) == Collapse(p, k) + Collapse(q, k)
    decreases |p|
  {
    if p == [] {
      assert p + q == q;
    } else if |p| == 1 {
      assert p == [p[0]];
      CollapseAppendOne(p[0], q, k);
    } else {
      CollapseAppend(p[1..], q, k);
      assert p == [p[0]] + p[1..];
      CollapseAppendStep(p[0], p[1..], q, k);
    }
  }

  lemma CollapseAppendOne(c: char, q: string, k: CharClass)
    requires q == [] || !(k.Has(c) && k.Has(q[0]))
    ensures Collapse([c] + q, k) == Collapse([c], k) + Collapse(q, k)
  {
    CollapseKeep(c, q, k);
    CollapseSingle(c, k);
  }

  /** A single character collapses to its rewrite. */
  lemma CollapseSingle(c: char, k: CharClass)
    ensures Collapse([c], k) == [Rewrite(c, k)]
  {
    assert [c][1..] == [];
  }

  lemma CollapseAppendStep(c: char, r: string, q: string, k: CharClass)
    requires r != []
    requires Collapse(r + q, k) == Collapse(r, k) + Collapse(q, k)
    ensures Collapse([c] + r + q, k) == Collapse([c] + r, k) + Collapse(q, k)
  {
    var rq := r + q;
    AppendAssociative([c], r, q);
    assert rq[0] == r[0];
    if k.Has(c) && k.Has(r[0]) {
      CollapseDrop(c, rq, k);
      CollapseDrop(c, r, k);
    } else {
      CollapseKeep(c, rq, k);
      CollapseKeep(c, r, k);
      AppendAssociative([Rewrite(c, k)], Collapse(r, k), Collapse(q, k));
    }
  }

  lemma AppendAssociative<T>(a: seq<T>, b: seq<T>, c: seq<T>)
    ensures a + (b + c) == a + b + c
  {
  }

  /** The words of a text: what is left without terminators and whitespace. */
  function Words(s: string): string
    decreases |s|
  {
    if s == [] then []
    else (if IsTerminator(s[0]) || IsSpace(s[0]) then [] else [s[0]]) + Words(s[1..])
  }

  lemma {:induction false} WordsAppend(a: string, b: string)
    ensures Words(a + b) == Words(a) + Words(b)
    decreases |a|
  {
    if a != [] {
      assert (a + b)[0] == a[0] && (a + b)[1..] == a[1..] + b;
      WordsAppend(a[1..], b);
    } else {
      assert a + b == b;
    }
  }

  lemma {:induction false} WordsOfBlank(s: string)
    requires IsBlank(s)
    ensures Words(s) == []
    decreases |s|
  {
    if s != [] {
      WordsOfBlank(s[1..]);
    }
  }

  /** Every collapse of the clean-up keeps the words. */
  lemma {:induction false} CollapseWords(s: string, k: CharClass)
    ensures Words(Collapse(s, k)) == Words(s)
    decreases |s|
  {
    if |s| > 0 {
      CollapseWords(s[1..], k);
      if !(|s| > 1 && k.Has(s[0]) && k.Has(s[1])) {
        var t := [Rewrite(s[0], k)] + Collapse(s[1..], k);
        assert t[1..] == Collapse(s[1..], k);
      }
    }
  }

  /** Whitespace around a text adds no words. */
  lemma WordsAround(pre: string, mid: string, post: string)
    requires IsBlank(pre) && IsBlank(post)
    ensures Words(pre + mid + post) == Words(mid)
  {
    WordsAppend(pre + mid, post);
    WordsAppend(pre, mid);
    WordsOfBlank(pre);
    WordsOfBlank(post);
  }

  /** Trimming keeps the words. */
  lemma TrimWords(s: string)
    ensures Words(Trim(s)) == Words(s)
  {
    WordsInfix(s, SkipSpaces(s, 0), Trim(s));
  }

  /** An infix with only whitespace around it has all the words. */
  lemma WordsInfix(s: string, i: nat, t: string)
    requires i + |t| <= |s| && t == s[i..i + |t|] && IsBlank(s[..i]) && IsBlank(s[i + |t|..])
    ensures Words(t) == Words(s)
  {
    var pre, post := s[..i], s[i + |t|..];
    assert s == pre + t + post;
    WordsAround(pre, t, post);
  }

  // ---------------------------------------------------------------------
  // speakSentence's clean-up

  /** `text.trim().replace(/[!?]+/g, '.').replace(/\.+/g, '.').replace(/\s+/g, ' ')` */
  function Clean(sentence: string): (spoken: string)
    ensures |spoken| <= |sentence|
    ensures spoken == [] <==> IsBlank(sentence)
  {
    Collapse(Collapse(Collapse(Trim(sentence), Bangs), Dots), Blanks)
  }

  /** A collapse neither lets in characters of a class `q` disjoint from `k`
      nor joins up characters of `q`, as long as the replacement is not in `q`. */
  lemma {:induction false} CollapseKeepsOut(s: string, k: CharClass, q: CharClass)
    requires k != q && k != Terminators && q != Terminators
    requires !q.Has(k.Replacement())
    requires forall i | 0 <= i < |s| :: !q.Has(s[i])
    ensures forall i | 0 <= i < |Collapse(s, k)| :: !q.Has(Collapse(s, k)[i])
    decreases |s|
  {
    if |s| > 0 {
      CollapseKeepsOut(s[1..], k, q);
    }
  }

  /** The cleaned sentence has no whitespace at either end. */
  lemma CleanTrimmed(sentence: string)
    ensures var t := Clean(sentence);
            t == [] || (!IsSpace(t[0]) && !IsSpace(t[|t| - 1]))
  {
    var a := Trim(sentence);
    var b := Collapse(a, Bangs);
    var c := Collapse(b, Dots);
    if a != [] {
      CollapseEnds(a, Bangs);
      CollapseEnds(b, Dots);
      CollapseEnds(c, Blanks);
      assert !IsSpace(b[0]) && !IsSpace(b[|b| - 1]);
      assert !IsSpace(c[0]) && !IsSpace(c[|c| - 1]);
    }
  }

  /** No `!` or `?` is left in a cleaned sentence. */
  lemma CleanNoBangs(sentence: string)
    ensures forall i | 0 <= i < |Clean(sentence)| :: !Bangs.Has(Clean(sentence)[i])
  {
    var b := Collapse(Trim(sentence), Bangs);
    CollapseChars(Trim(sentence), Bangs);
    CollapseKeepsOut(b, Dots, Bangs);
    CollapseKeepsOut(Collapse(b, Dots), Blanks, Bangs);
  }

  /** No `..` is left in a cleaned sentence. */
  lemma CleanNoDoubleDot(sentence: string)
    ensures NoAdjacent(Clean(sentence), Dots)
  {
    var c := Collapse(Collapse(Trim(sentence), Bangs), Dots);
    CollapseLeavesNoRun(Collapse(Trim(sentence), Bangs), Dots);
    CollapseKeepsApart(c, Blanks, Dots);
  }

  /** Whitespace in a cleaned sentence is single plain spaces. */
  lemma CleanSingleSpaces(sentence: string)
    ensures NoAdjacent(Clean(sentence), Blanks)
    ensures forall i | 0 <= i < |Clean(sentence)| :: IsSpace(Clean(sentence)[i]) ==> Clean(sentence)[i] == ' '
  {
    var c := Collapse(Collapse(Trim(sentence), Bangs), Dots);
    CollapseLeavesNoRun(c, Blanks);
    CollapseChars(c, Blanks);
  }

  /** Cleaning a cleaned sentence changes nothing. */
  lemma CleanIdempotent(sentence: string)
    ensures Clean(Clean(sentence)) == Clean(sentence)
  {
    CleanTrimmed(sentence);
    CleanNoBangs(sentence);
    CleanNoDoubleDot(sentence);
    CleanSingleSpaces(sentence);
    CleanUnchanged(Clean(sentence));
  }

  /** Text already in the form the clean-up produces is left as it is:
      no whitespace at its ends, no `!` or `?`, no `..`, and single plain
      spaces only. */
  lemma CleanUnchanged(t: string)
    requires t == [] || (!IsSpace(t[0]) && !IsSpace(t[|t| - 1]))
    requires forall i | 0 <= i < |t| :: !Bangs.Has(t[i])
    requires NoAdjacent(t, Dots) && NoAdjacent(t, Blanks)
    requires forall i | 0 <= i < |t| :: IsSpace(t[i]) ==> t[i] == ' '
    ensures Clean(t) == t
  {
    TrimUnchanged(t);
    assert NoAdjacent(t, Bangs);
    CollapseFixpoint(t, Bangs);
    assert forall i | 0 <= i < |t| :: Dots.Has(t[i]) ==> t[i] == Dots.Replacement();
    CollapseFixpoint(t, Dots);
    assert forall i | 0 <= i < |t| :: Blanks.Has(t[i]) ==> t[i] == Blanks.Replacement();
    CollapseFixpoint(t, Blanks);
  }

  /** The clean-up only rewrites punctuation and whitespace: the words of
      the sentence are all spoken, in order. */
  lemma CleanWords(sentence: string)
    ensures Words(Clean(sentence)) == Words(sentence)
  {
    var a := Trim(sentence);
    var b := Collapse(a, Bangs);
    var c := Collapse(b, Dots);
    TrimWords(sentence);
    CollapseWords(a, Bangs);
    CollapseWords(b, Dots);
    CollapseWords(c, Blanks);
  }

  // ---------------------------------------------------------------------
  // speakResponse's segmentation

  /** `s.split(/[.!?]+/)`: the stretches of `s` between maximal runs of
      terminators, including the empty ones before a leading run and after
      a trailing run. A terminator followed by another one is inside a run;
      the last terminator of a run closes the current piece. */
  function Split(s: string): (pieces: seq<string>)
    ensures |pieces| >= 1
    ensures forall i | 0 <= i < |pieces| :: NoTerminator(pieces[i])
    decreases |s|
  {
    if |s| == 0 then [[]]
    else
      var rest := Split(s[1..]);
      if !IsTerminator(s[0]) then [[s[0]] + rest[0]] + rest[1..]
      else if |s| > 1 && IsTerminator(s[1]) then rest
      else [[]] + rest
  }

  /** The pieces glued back together with one `.` between neighbours. */
  function Join(pieces: seq<string>): string
    requires |pieces| >= 1
    decreases |pieces|
  {
    if |pieces| == 1 then pieces[0] else pieces[0] + "." + Join(pieces[1..])
  }

  /** Splitting loses nothing but the terminator runs, and keeps the text in
      order: joining the pieces on single periods gives back the text with
      every terminator run turned into one period. */
  lemma {:induction false} JoinSplit(s: string)
    ensures Join(Split(s)) == Collapse(s, Terminators)
    decreases |s|
  {
    if |s| > 0 {
      JoinSplit(s[1..]);
      var rest := Split(s[1..]);
      if !IsTerminator(s[0]) {
        var pieces := [[s[0]] + rest[0]] + rest[1..];
        assert Split(s) == pieces;
        if |rest| > 1 {
          assert pieces[1..] == rest[1..];
          assert Join(rest) == rest[0] + "." + Join(rest[1..]);
        }
        assert Join(pieces) == [s[0]] + Join(rest);
      } else if |s| > 1 && IsTerminator(s[1]) {
      } else {
        assert ([[]] + rest)[1..] == rest;
      }
    }
  }

  /** The two punctuation steps of the clean-up together turn every
      terminator run into one period. */
  lemma {:induction false} PunctuationCollapse(s: string)
    ensures Collapse(Collapse(s, Bangs), Dots) == Collapse(s, Terminators)
    decreases |s|
  {
    if |s| > 0 {
      PunctuationCollapse(s[1..]);
      var b := Collapse(s[1..], Bangs);
      CollapseEnds(s[1..], Bangs);
      if !IsTerminator(s[0]) {
        assert Collapse(s, Bangs) == [s[0]] + b;
        assert ([s[0]] + b)[1..] == b;
      } else if |s| > 1 && IsTerminator(s[1]) {
        if !(Bangs.Has(s[0]) && Bangs.Has(s[1])) {
          assert Collapse(s, Bangs) == ['.'] + b;
          assert (['.'] + b)[1..] == b;
        }
      } else {
        assert Collapse(s, Bangs) == ['.'] + b;
        assert (['.'] + b)[1..] == b;
      }
    }
  }

  /** Text without terminators is a single piece. */
  lemma {:induction false} SplitWithoutTerminator(s: string)
    requires NoTerminator(s)
    ensures Split(s) == [s]
    decreases |s|
  {
    if |s| > 0 {
      SplitWithoutTerminator(s[1..]);
      assert s == [s[0]] + s[1..];
    }
  }

  /** A terminator-free sentence closed by a terminator splits off as one
      piece, when what follows does not continue the terminator run. */
  lemma {:induction false} SplitSentence(sentence: string, t: char, rest: string)
    requires NoTerminator(sentence) && IsTerminator(t)
    requires rest == [] || !IsTerminator(rest[0])
    ensures Split(sentence + [t] + rest) == [sentence] + Split(rest)
    decreases |sentence|
  {
    if sentence == [] {
      assert ([t] + rest)[1..] == rest;
    } else {
      SplitSentence(sentence[1..], t, rest);
      assert (sentence + [t] + rest)[1..] == sentence[1..] + [t] + rest;
      assert [sentence[0]] + sentence[1..] == sentence;
    }
  }

  /** Text made of terminators and whitespace splits into blank pieces only. */
  lemma {:induction false} SplitOfBlankText(s: string)
    requires forall i | 0 <= i < |s| :: IsTerminator(s[i]) || IsSpace(s[i])
    ensures forall i | 0 <= i < |Split(s)| :: IsBlank(Split(s)[i])
    decreases |s|
  {
    if |s| > 0 {
      SplitOfBlankText(s[1..]);
    }
  }

  /** `filter(sentence => sentence.trim().length > 0)`; by the contract of
      `Trim`, a piece has a non-empty trim exactly when it is not blank. */
  function KeepNonBlank(pieces: seq<string>): (kept: seq<string>)
    ensures |kept| <= |pieces|
    ensures forall i | 0 <= i < |kept| :: !IsBlank(kept[i]) && kept[i] in pieces
    decreases |pieces|
  {
    if pieces == [] then []
    else (if !IsBlank(pieces[0]) then [pieces[0]] else []) + KeepNonBlank(pieces[1..])
  }

  /** `a` is `b` with some elements left out. */
  predicate IsSubsequence(a: seq<string>, b: seq<string>)
    decreases |b|
  {
    a == [] || (b != [] && ((a[0] == b[0] && IsSubsequence(a[1..], b[1..])) || IsSubsequence(a, b[1..])))
  }

  /** The filter works piece by piece: a single piece is kept exactly when
      it is not blank ... */
  lemma KeepNonBlankSingle(p: string)
    ensures KeepNonBlank([p]) == if IsBlank(p) then [] else [p]
  {
    assert [p][1..] == [];
  }

  /** ... and filtering a concatenation concatenates the filtered parts, so
      every non-blank piece is kept as often as it occurs, in its place. */
  lemma {:induction false} KeepNonBlankAppend(a: seq<string>, b: seq<string>)
    ensures KeepNonBlank(a + b) == KeepNonBlank(a) + KeepNonBlank(b)
    decreases |a|
  {
    if a == [] {
      assert a + b == b;
    } else {
      assert (a + b)[0] == a[0] && (a + b)[1..] == a[1..] + b;
      KeepNonBlankAppend(a[1..], b);
    }
  }

  lemma KeepNonBlankCut(pieces: seq<string>, n: nat)
    requires n <= |pieces|
    ensures KeepNonBlank(pieces) == KeepNonBlank(pieces[..n]) + KeepNonBlank(pieces[n..])
  {
    assert pieces == pieces[..n] + pieces[n..];
    KeepNonBlankAppend(pieces[..n], pieces[n..]);
  }

  lemma {:induction false} KeepNonBlankInOrder(pieces: seq<string>)
    ensures IsSubsequence(KeepNonBlank(pieces), pieces)
    ensures forall i | 0 <= i < |pieces| :: !IsBlank(pieces[i]) ==> pieces[i] in KeepNonBlank(pieces)
    decreases |pieces|
  {
    if pieces != [] {
      KeepNonBlankInOrder(pieces[1..]);
      if !IsBlank(pieces[0]) {
        assert KeepNonBlank(pieces)[1..] == KeepNonBlank(pieces[1..]);
      } else {
        assert KeepNonBlank(pieces) == KeepNonBlank(pieces[1..]);
      }
    }
  }

  lemma {:induction false} KeepNonBlankOfBlanks(pieces: seq<string>)
    requires forall i | 0 <= i < |pieces| :: IsBlank(pieces[i])
    ensures KeepNonBlank(pieces) == []
    decreases |pieces|
  {
    if pieces != [] {
      KeepNonBlankOfBlanks(pieces[1..]);
    }
  }

  /** The sentences `speakResponse` speaks, in order. */
  function Segments(text: string): (segments: seq<string>)
    ensures forall i | 0 <= i < |segments| :: !IsBlank(segments[i]) && NoTerminator(segments[i])
  {
    KeepNonBlank(Split(text))
  }

  /** Segments keep the order of the text: they are the non-blank pieces of
      the split, in the order the split produced them, each as often as it
      occurs; cutting the pieces anywhere cuts the segments there. */
  lemma SegmentsInOrder(text: string, n: nat)
    requires n <= |Split(text)|
    ensures IsSubsequence(Segments(text), Split(text))
    ensures forall i | 0 <= i < |Split(text)| :: !IsBlank(Split(text)[i]) ==> Split(text)[i] in Segments(text)
    ensures Segments(text) == KeepNonBlank(Split(text)[..n]) + KeepNonBlank(Split(text)[n..])
  {
    KeepNonBlankInOrder(Split(text));
    KeepNonBlankCut(Split(text), n);
  }

  /** A non-blank sentence closed by a terminator is spoken first, and then
      whatever follows it, even when that is the same sentence again. */
  lemma SegmentsSentence(sentence: string, t: char, rest: string)
    requires NoTerminator(sentence) && !IsBlank(sentence) && IsTerminator(t)
    requires rest == [] || !IsTerminator(rest[0])
    ensures Segments(sentence + [t] + rest) == [sentence] + Segments(rest)
  {
    SplitSentence(sentence, t, rest);
    KeepNonBlankAppend([sentence], Split(rest));
    KeepNonBlankSingle(sentence);
  }

  /** Text made only of terminators and whitespace has nothing to speak. */
  lemma SegmentsOfBlankText(text: string)
    requires forall i | 0 <= i < |text| :: IsTerminator(text[i]) || IsSpace(text[i])
    ensures Segments(text) == []
  {
    SplitOfBlankText(text);
    KeepNonBlankOfBlanks(Split(text));
  }

  /** Non-blank text without a terminator is spoken as one segment, the whole text. */
  lemma SegmentsOfOneSentence(text: string)
    requires NoTerminator(text) && !IsBlank(text)
    ensures Segments(text) == [text]
  {
    SplitWithoutTerminator(text);
    assert KeepNonBlank([text]) == [text] + KeepNonBlank([]);
  }

  /** A segment has no terminator, so the punctuation steps of the clean-up
      leave it alone: what is spoken is the trimmed segment with its
      whitespace runs collapsed, and it never ends in a period. */
  lemma CleanSegment(segment: string)
    requires NoTerminator(segment)
    ensures Clean(segment) == Collapse(Trim(segment), Blanks)
    ensures NoTerminator(Clean(segment))
  {
    var a := Trim(segment);
    TrimNoTerminator(segment);
    CollapseFixpoint(a, Bangs);
    CollapseFixpoint(a, Dots);
    CollapseKeepsOut(a, Blanks, Dots);
    CollapseKeepsOut(a, Blanks, Bangs);
  }

  /** Every segment is spoken as non-empty text without terminators,
      without whitespace at its ends and with single spaces only. */
  lemma SpokenSegment(text: string, k: nat)
    requires k < |Segments(text)|
    ensures var spoken := Clean(Segments(text)[k]);
            spoken != [] && NoTerminator(spoken)
            && !IsSpace(spoken[0]) && !IsSpace(spoken[|spoken| - 1])
            && NoAdjacent(spoken, Blanks)
  {
    var segment := Segments(text)[k];
    CleanSegment(segment);
    CleanTrimmed(segment);
    CleanSingleSpaces(segment);
  }
}
