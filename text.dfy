/**
 * The JavaScript string operations the form schema relies on: `trim`,
 * `split` and `join` on a single separator character, `endsWith`, and
 * ASCII upper/lower casing of characters.
 */
module Text {

  /** The code points that `String.prototype.trim` removes: ECMAScript's
      WhiteSpace (tab, vertical tab, form feed, space, no-break space,
      byte order mark, category Zs) and LineTerminator code points. */
  predicate IsSpace(c: char) {
    || c == '\t' || c == '\n' || c == '\U{B}' || c == '\U{C}' || c == '\r' || c == ' '
    || c == '\U{A0}' || c == '\U{1680}' || ('\U{2000}' <= c <= '\U{200A}')
    || c == '\U{2028}' || c == '\U{2029}' || c == '\U{202F}' || c == '\U{205F}'
    || c == '\U{3000}' || c == '\U{FEFF}'
  }

  /** The number of whitespace characters `s` starts with. */
  function LeadingSpaces(s: string): (n: nat)
    ensures n <= |s|
    ensures forall k | 0 <= k < n :: IsSpace(s[k])
    ensures n == |s| || !IsSpace(s[n])
  {
    if s != [] && IsSpace(s[0]) then 1 + LeadingSpaces(s[1..]) else 0
  }

  /** The number of whitespace characters `s` ends with. */
  function TrailingSpaces(s: string): (n: nat)
    ensures n <= |s|
    ensures forall k | |s| - n <= k < |s| :: IsSpace(s[k])
    ensures n == |s| || !IsSpace(s[|s| - 1 - n])
  {
    if s != [] && IsSpace(s[|s| - 1]) then 1 + TrailingSpaces(s[..|s| - 1]) else 0
  }

  /** `s.trim()`: `s` without the whitespace at either end. */
  function Trim(s: string): (r: string)
    ensures |r| <= |s|
    ensures r == [] || (!IsSpace(r[0]) && !IsSpace(r[|r| - 1]))
  {
    var i := LeadingSpaces(s);
    if i == |s| then [] else s[i..|s| - TrailingSpaces(s)]
  }

  /** The trim is an infix of `s`, and everything cut off before and after
      it is whitespace. */
  lemma TrimIsInfix(s: string)
    ensures var i := LeadingSpaces(s);
      var r := Trim(s);
      && i + |r| <= |s| && r == s[i..i + |r|]
      && (forall k | 0 <= k < i :: IsSpace(s[k]))
      && (forall k | i + |r| <= k < |s| :: IsSpace(s[k]))
  {
  }

  /** A string that neither starts nor ends with whitespace is its own trim,
      and no other string is. */
  lemma TrimIdentity(s: string)
    ensures Trim(s) == s <==> s == [] || (!IsSpace(s[0]) && !IsSpace(s[|s| - 1]))
  {
  }

  /** Trimming leaves nothing exactly when every character is whitespace. */
  lemma TrimEmptyIff(s: string)
    ensures Trim(s) == [] <==> forall k | 0 <= k < |s| :: IsSpace(s[k])
  {
  }

  /** `s.split(sep)`: the maximal runs of `s` between occurrences of `sep`,
      in order. Like JavaScript, the empty string splits into one empty
      piece, and adjacent or boundary separators yield empty pieces. */
  function Split(s: string, sep: char): (ws: seq<string>)
    ensures |ws| >= 1
  {
    if s == [] then [""]
    else
      var rest := Split(s[1..], sep);
      if s[0] == sep then [""] + rest
      else [[s[0]] + rest[0]] + rest[1..]
  }

  /** `ws.join(sep)`: the pieces of `ws` with `sep` between neighbours. */
  function Join(ws: seq<string>, sep: char): string {
    if |ws| == 0 then ""
    else if |ws| == 1 then ws[0]
    else ws[0] + [sep] + Join(ws[1..], sep)
  }

  /** No two consecutive characters of `s` are both `sep`. */
  predicate NoDoubleSep(s: string, sep: char) {
    forall i | 0 <= i < |s| - 1 :: !(s[i] == sep && s[i + 1] == sep)
  }

  /** Joining the pieces of a split gives back the original string. */
  lemma {:induction false} JoinSplit(s: string, sep: char)
    ensures Join(Split(s, sep), sep) == s
  {
    if s != [] {
      var rest := Split(s[1..], sep);
      JoinSplit(s[1..], sep);
      if s[0] == sep {
        assert ([""] + rest)[1..] == rest;
      } else if |rest| > 1 {
        var ws := Split(s, sep);
        assert ws[1..] == rest[1..];
        assert Join(rest, sep) == rest[0] + [sep] + Join(rest[1..], sep);
      }
    }
  }

  /** No piece of a split contains the separator. */
  lemma {:induction false} SplitNoSep(s: string, sep: char)
    ensures forall k | 0 <= k < |Split(s, sep)| :: sep !in Split(s, sep)[k]
  {
    if s != [] {
      SplitNoSep(s[1..], sep);
    }
  }

  /** Splitting `a + b`, when `a` holds no separator, glues `a` to the
      front of the first piece of `b`. */
  lemma {:induction false} SplitPrefix(a: string, b: string, sep: char)
    requires sep !in a
    ensures Split(a + b, sep) == [a + Split(b, sep)[0]] + Split(b, sep)[1..]
  {
    var ws := Split(b, sep);
    if a != [] {
      var u := a + b;
      assert u[1..] == a[1..] + b;
      SplitPrefix(a[1..], b, sep);
      var rest := Split(u[1..], sep);
      SplitStep(u, sep);
      assert rest[0] == a[1..] + ws[0] && rest[1..] == ws[1..];
      assert [u[0]] + rest[0] == a + ws[0];
    } else {
      assert a + b == b && a + ws[0] == ws[0];
      assert [ws[0]] + ws[1..] == ws;
    }
  }

  /** One step of a split on a string that does not start with `sep`. */
  lemma SplitStep(s: string, sep: char)
    requires s != [] && s[0] != sep
    ensures Split(s, sep) == [[s[0]] + Split(s[1..], sep)[0]] + Split(s[1..], sep)[1..]
  {
  }

  /** Splitting a join of separator-free pieces gives back the pieces. */
  lemma {:induction false} SplitJoin(ws: seq<string>, sep: char)
    requires |ws| >= 1
    requires forall k | 0 <= k < |ws| :: sep !in ws[k]
    ensures Split(Join(ws, sep), sep) == ws
  {
    if |ws| == 1 {
      SplitPrefix(ws[0], "", sep);
      assert ws[0] + "" == ws[0];
    } else {
      var tail := Join(ws[1..], sep);
      SplitJoin(ws[1..], sep);
      assert ([sep] + tail)[1..] == tail;
      assert Split([sep] + tail, sep) == [""] + ws[1..];
      assert Join(ws, sep) == ws[0] + ([sep] + tail);
      SplitPrefix(ws[0], [sep] + tail, sep);
      assert ws[0] + "" == ws[0];
    }
  }

  /** The first piece of a split is empty exactly when the string is empty
      or starts with the separator. */
  lemma SplitFirstEmptyIff(s: string, sep: char)
    ensures Split(s, sep)[0] == [] <==> s == [] || s[0] == sep
  {
  }

  /** Adjacent separators in `t` are either its first two characters or
      adjacent separators in its tail. */
  lemma NoDoubleSepStep(t: string, sep: char)
    requires |t| >= 2
    ensures NoDoubleSep(t, sep) <==> NoDoubleSep(t[1..], sep) && !(t[0] == sep && t[1] == sep)
  {
    var u := t[1..];
    if NoDoubleSep(t, sep) {
      forall i | 0 <= i < |u| - 1 ensures !(u[i] == sep && u[i + 1] == sep) {
        assert u[i] == t[i + 1] && u[i + 1] == t[i + 2];
      }
    }
    if NoDoubleSep(u, sep) && !(t[0] == sep && t[1] == sep) {
      forall i | 0 <= i < |t| - 1 ensures !(t[i] == sep && t[i + 1] == sep) {
        if i > 0 {
          assert t[i] == u[i - 1] && t[i + 1] == u[i];
        }
      }
    }
  }

  /** Every piece after the first is non-empty exactly when the string is
      empty, or ends in something other than the separator and holds no
      two adjacent separators. */
  lemma {:induction false} SplitTailNonEmptyIff(t: string, sep: char)
    ensures (forall k | 1 <= k < |Split(t, sep)| :: Split(t, sep)[k] != [])
        <==> t == [] || (t[|t| - 1] != sep && NoDoubleSep(t, sep))
  {
    if t != [] {
      var u := t[1..];
      var rest := Split(u, sep);
      SplitTailNonEmptyIff(u, sep);
      SplitFirstEmptyIff(u, sep);
      if u != [] {
        assert u[|u| - 1] == t[|t| - 1];
        NoDoubleSepStep(t, sep);
      }
      if t[0] == sep {
        var ws := Split(t, sep);
        assert ws == [""] + rest;
        assert forall k | 1 <= k < |ws| :: ws[k] == rest[k - 1];
        if u == [] {
          assert ws[1] == [];
        } else if u[0] == sep {
          assert ws[1] == rest[0] == [];
          assert !(forall k | 1 <= k < |ws| :: ws[k] != []);
          assert t[0] == sep && t[1] == sep;
          assert !NoDoubleSep(t, sep);
        } else {
          assert rest[0] != [];
          if forall k | 1 <= k < |ws| :: ws[k] != [] {
            forall k | 1 <= k < |rest| ensures rest[k] != [] {
              assert rest[k] == ws[k + 1];
            }
          }
        }
      } else {
        var ws := Split(t, sep);
        assert forall k | 1 <= k < |ws| :: ws[k] == rest[k];
      }
    }
  }

  /** Every piece of a split is non-empty exactly when the string is
      non-empty, neither starts nor ends with the separator, and holds no
      two adjacent separators. */
  lemma SplitAllNonEmptyIff(s: string, sep: char)
    ensures (forall k | 0 <= k < |Split(s, sep)| :: Split(s, sep)[k] != [])
        <==> s != [] && s[0] != sep && s[|s| - 1] != sep && NoDoubleSep(s, sep)
  {
    SplitFirstEmptyIff(s, sep);
    SplitTailNonEmptyIff(s, sep);
  }

  /** `c.toLocaleUpperCase()`, on ASCII letters only. */
  function UpperChar(c: char): char {
    if 'a' <= c <= 'z' then (c as int - 32) as char else c
  }

  /** `c.toLowerCase()`, on ASCII letters only. */
  function LowerChar(c: char): char {
    if 'A' <= c <= 'Z' then (c as int + 32) as char else c
  }

  /** Upper-casing is idempotent, touches letters only, and so never turns
      a character into whitespace or out of it. */
  lemma UpperCharProperties(c: char)
    ensures UpperChar(UpperChar(c)) == UpperChar(c)
    ensures IsSpace(UpperChar(c)) <==> IsSpace(c)
    ensures UpperChar(c) == ' ' <==> c == ' '
    ensures UpperChar(c) == c || 'a' <= c <= 'z'
  {
  }

  /** `s.toLowerCase()`, on ASCII letters only. */
  function LowerString(s: string): (r: string)
    ensures |r| == |s|
    ensures forall k | 0 <= k < |s| :: r[k] == LowerChar(s[k])
  {
    seq(|s|, k requires 0 <= k < |s| => LowerChar(s[k]))
  }

  /** No character of `s` is an upper-case ASCII letter. */
  predicate IsLowerCase(s: string) {
    forall k | 0 <= k < |s| :: !('A' <= s[k] <= 'Z')
  }

  /** A lower-cased string holds no upper-case letter, and lower-casing it
      again changes nothing. */
  lemma LowerStringIsLowerCase(s: string)
    ensures IsLowerCase(LowerString(s))
    ensures LowerString(LowerString(s)) == LowerString(s)
  {
  }

  /** `s.endsWith(suffix)`. */
  predicate EndsWith(s: string, suffix: string) {
    |suffix| <= |s| && s[|s| - |suffix|..] == suffix
  }
}
