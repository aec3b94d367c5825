/**
 * The `transform` attached to the `name` field: trim the name, split it on
 * single spaces, upper-case the first character of every word and join the
 * words back with single spaces. `word[0]` is `undefined` for an empty
 * word, and calling `toLocaleUpperCase` on it throws, so the transform is
 * partial: `TitleCase` answers `None` exactly where the code would throw.
 */
module NameTransform {
  import opened Wrappers
  import opened Text

  /** `word[0].toLocaleUpperCase().concat(word.substring(1))`. */
  function Capitalize(word: string): string
    requires word != []
  {
    [UpperChar(word[0])] + word[1..]
  }

  /** `words.map(word => Capitalize(word))`. */
  function CapitalizeAll(words: seq<string>): (r: seq<string>)
    requires forall k | 0 <= k < |words| :: words[k] != []
    ensures |r| == |words|
  {
    seq(|words|, k requires 0 <= k < |words| => Capitalize(words[k]))
  }

  /** True when trimming and splitting on ' ' leaves no empty word, so that
      every `word[0]` exists. */
  predicate HasNoEmptyWord(name: string) {
    var words := Split(Trim(name), ' ');
    forall k | 0 <= k < |words| :: words[k] != []
  }

  /** The name transform; `None` where the code throws a TypeError. */
  function TitleCase(name: string): Option<string> {
    var words := Split(Trim(name), ' ');
    if HasNoEmptyWord(name) then Some(Join(CapitalizeAll(words), ' ')) else None
  }

  /** Reference definition: upper-case exactly the characters that open a
      word, that is, the first character and every character after a space. */
  function UpperWordStarts(s: string): (r: string)
    ensures |r| == |s|
  {
    seq(|s|, i requires 0 <= i < |s| => if i == 0 || s[i - 1] == ' ' then UpperChar(s[i]) else s[i])
  }

  /** A name can be transformed exactly when, once trimmed, it is not empty
      and holds no two consecutive spaces. */
  lemma TitleCaseDefinedIff(name: string)
    ensures TitleCase(name).Some? <==> Trim(name) != [] && NoDoubleSep(Trim(name), ' ')
  {
    var t := Trim(name);
    SplitAllNonEmptyIff(t, ' ');
    if t != [] {
      assert !IsSpace(t[0]) && !IsSpace(t[|t| - 1]);
      assert t[0] != ' ' && t[|t| - 1] != ' ';
    }
    assert TitleCase(name).Some? <==> HasNoEmptyWord(name);
  }

  /** A name made only of whitespace, however long, throws. */
  lemma WhitespaceNameThrows(name: string)
    requires forall k | 0 <= k < |name| :: IsSpace(name[k])
    ensures TitleCase(name) == None
  {
    TrimEmptyIff(name);
    TitleCaseDefinedIff(name);
  }

  /** On a single word, capitalising and upper-casing word starts agree. */
  lemma UpperWordStartsOfWord(w: string)
    requires w != [] && ' ' !in w
    ensures UpperWordStarts(w) == Capitalize(w)
  {
    forall i | 0 < i < |w| ensures UpperWordStarts(w)[i] == w[i] {
      assert w[i - 1] in w;
    }
  }

  /** Upper-casing the word starts of `w + " " + t` capitalises `w` and
      carries on with `t` as a fresh string. */
  lemma UpperWordStartsAfterWord(w: string, t: string)
    requires w != [] && ' ' !in w
    ensures UpperWordStarts(w + [' '] + t) == Capitalize(w) + [' '] + UpperWordStarts(t)
  {
    var s := w + [' '] + t;
    var lhs := UpperWordStarts(s);
    var rhs := Capitalize(w) + [' '] + UpperWordStarts(t);
    assert |lhs| == |rhs|;
    forall i | 0 <= i < |s| ensures lhs[i] == rhs[i] {
      if 0 < i < |w| {
        assert s[i - 1] == w[i - 1] && w[i - 1] in w;
      } else if i == |w| {
        assert s[i - 1] == w[|w| - 1] && w[|w| - 1] in w;
      } else if i > |w| {
        assert s[i] == t[i - |w| - 1];
        if i > |w| + 1 {
          assert s[i - 1] == t[i - |w| - 2];
        }
      }
    }
  }

  /** Joining capitalised words upper-cases the word starts of the join. */
  lemma {:induction false} JoinCapitalized(words: seq<string>)
    requires |words| >= 1
    requires forall k | 0 <= k < |words| :: words[k] != [] && ' ' !in words[k]
    ensures Join(CapitalizeAll(words), ' ') == UpperWordStarts(Join(words, ' '))
  {
    if |words| == 1 {
      UpperWordStartsOfWord(words[0]);
    } else {
      JoinCapitalized(words[1..]);
      assert CapitalizeAll(words)[1..] == CapitalizeAll(words[1..]);
      UpperWordStartsAfterWord(words[0], Join(words[1..], ' '));
    }
  }

  /** The transform agrees with the reference definition: where it is
      defined, it upper-cases the word starts of the trimmed name and changes
      nothing else. */
  lemma TitleCaseIsUpperWordStarts(name: string)
    ensures TitleCase(name) ==
      if Trim(name) != [] && NoDoubleSep(Trim(name), ' ')
      then Some(UpperWordStarts(Trim(name))) else None
  {
    TitleCaseDefinedIff(name);
    var words := Split(Trim(name), ' ');
    if HasNoEmptyWord(name) {
      SplitNoSep(Trim(name), ' ');
      JoinSplit(Trim(name), ' ');
      JoinCapitalized(words);
    }
  }

  /** The transform keeps the number of words and every word's tail: word
      `k` of the result is word `k` of the trimmed name with its first
      character upper-cased. */
  lemma TitleCaseKeepsWords(name: string)
    requires TitleCase(name).Some?
    ensures var words := Split(Trim(name), ' ');
      var out := Split(TitleCase(name).value, ' ');
      && |out| == |words|
      && forall k | 0 <= k < |words| ::
           out[k] != [] && words[k] != [] && out[k][0] == UpperChar(words[k][0]) && out[k][1..] == words[k][1..]
  {
    var words := Split(Trim(name), ' ');
    var caps := CapitalizeAll(words);
    SplitNoSep(Trim(name), ' ');
    forall k | 0 <= k < |caps| ensures ' ' !in caps[k] {
      forall j | 0 <= j < |caps[k]| ensures caps[k][j] != ' ' {
        if j == 0 {
          UpperCharProperties(words[k][0]);
          assert words[k][0] in words[k];
        } else {
          assert caps[k][j] == words[k][j] && words[k][j] in words[k];
        }
      }
    }
    SplitJoin(caps, ' ');
  }

  /** Upper-casing word starts preserves where the spaces are. */
  lemma UpperWordStartsKeepsSpaces(s: string, i: int)
    requires 0 <= i < |s|
    ensures UpperWordStarts(s)[i] == ' ' <==> s[i] == ' '
    ensures IsSpace(UpperWordStarts(s)[i]) <==> IsSpace(s[i])
  {
    UpperCharProperties(s[i]);
  }

  /** Upper-casing word starts keeps a trimmed, well-spaced string trimmed
      and well-spaced. */
  lemma UpperWordStartsKeepsShape(t: string)
    requires t != [] && !IsSpace(t[0]) && !IsSpace(t[|t| - 1]) && NoDoubleSep(t, ' ')
    ensures var r := UpperWordStarts(t);
      r != [] && Trim(r) == r && NoDoubleSep(r, ' ')
  {
    var r := UpperWordStarts(t);
    UpperWordStartsKeepsSpaces(t, 0);
    UpperWordStartsKeepsSpaces(t, |t| - 1);
    TrimIdentity(r);
    forall i | 0 <= i < |r| - 1 ensures !(r[i] == ' ' && r[i + 1] == ' ') {
      UpperWordStartsKeepsSpaces(t, i);
      UpperWordStartsKeepsSpaces(t, i + 1);
    }
  }

  /** Upper-casing word starts twice is the same as once. */
  lemma UpperWordStartsIdempotent(t: string)
    ensures UpperWordStarts(UpperWordStarts(t)) == UpperWordStarts(t)
  {
    var r := UpperWordStarts(t);
    forall i | 0 <= i < |r| ensures UpperWordStarts(r)[i] == r[i] {
      UpperCharProperties(t[i]);
      if i > 0 {
        UpperWordStartsKeepsSpaces(t, i - 1);
      }
    }
  }

  /** The transform is idempotent: a transformed name is transformed to
      itself. */
  lemma TitleCaseIdempotent(name: string)
    requires TitleCase(name).Some?
    ensures TitleCase(TitleCase(name).value) == TitleCase(name)
  {
    var t := Trim(name);
    TitleCaseIsUpperWordStarts(name);
    var r := UpperWordStarts(t);
    UpperWordStartsKeepsShape(t);
    TitleCaseIsUpperWordStarts(r);
    UpperWordStartsIdempotent(t);
  }

  /** "joão silva" becomes "João Silva". */
  lemma TitleCaseExample(name: string)
    requires name == "joão silva"
    ensures TitleCase(name) == Some("João Silva")
  {
    TrimIdentity(name);
    assert NoDoubleSep(name, ' ') by {
      forall i | 0 <= i < |name| - 1 ensures name[i] != ' ' || name[i + 1] != ' ' {
        assert name[4] == ' ' && name[3] != ' ' && name[5] != ' ';
      }
    }
    TitleCaseIsUpperWordStarts(name);
    var u := UpperWordStarts(name);
    var want := "João Silva";
    forall i | 0 <= i < |u| ensures u[i] == want[i] {
      if i > 0 && i != 5 {
        assert name[i - 1] != ' ';
      }
    }
    assert u == want;
  }
}
