// String operations of JavaScript and of the editor, as the plugin uses them.
// Strings are sequences of characters; case mapping covers ASCII letters only.
module Text {

  /** Clamps an index into [0, n], as `String.prototype.substring` does with
      its arguments and as the editor does with a column outside the line. */
  function Clip(i: int, n: nat): (r: nat)
    ensures r <= n
    ensures 0 <= i <= n ==> r == i
  {
    if i < 0 then 0 else if i > n then n else i
  }

  /** JavaScript `s.substring(a, b)`: both ends clamped, swapped when a > b. */
  function JsSubstring(s: string, a: int, b: int): (r: string)
    ensures |r| <= |s|
    ensures 0 <= a <= b <= |s| ==> r == s[a..b]
  {
    var x, y := Clip(a, |s|), Clip(b, |s|);
    if x <= y then s[x..y] else s[y..x]
  }

  /** The editor's `getRange(from, to)` on one line: columns are clipped to the line. */
  function GetRange(line: string, from: int, to: int): (r: string)
    requires from <= to
    ensures 0 <= from <= to <= |line| ==> r == line[from..to]
  {
    line[Clip(from, |line|)..Clip(to, |line|)]
  }

  /** The text of the line after the editor's `replaceRange(insert, from, to)`. */
  function Splice(line: string, from: int, to: int, insert: string): (r: string)
    requires from <= to
    ensures |r| == |line| - (Clip(to, |line|) - Clip(from, |line|)) + |insert|
    ensures r[..Clip(from, |line|)] == line[..Clip(from, |line|)]
    ensures r[Clip(from, |line|)..Clip(from, |line|) + |insert|] == insert
    ensures r[Clip(from, |line|) + |insert|..] == line[Clip(to, |line|)..]
  {
    line[..Clip(from, |line|)] + insert + line[Clip(to, |line|)..]
  }

  /** Where a caret at column c of the line ends up after
      `replaceRange(insert, from, to)`: before the range it stays, at or after
      its end it moves with the text, and inside it lands after the insert. */
  function MapCursor(line: string, c: nat, from: int, to: int, insert: string): (r: nat)
    requires from <= to && c <= |line|
    ensures r <= |Splice(line, from, to, insert)|
    ensures insert == [] ==> r <= c
  {
    var f, t := Clip(from, |line|), Clip(to, |line|);
    if c >= t then c - (t - f) + |insert|
    else if c <= f then c
    else f + |insert|
  }

  predicate EndsWith(s: string, suffix: string)
  {
    |suffix| <= |s| && s[|s| - |suffix|..] == suffix
  }

  /** `s.contains(sub)` (equivalently `s.indexOf(sub) > -1`); the empty string is
      contained in every string. */
  predicate Contains(s: string, sub: string)
  {
    exists i :: 0 <= i <= |s| && sub <= s[i..]
  }

  // ---------------------------------------------------------------------------
  // split(' ')

  /** JavaScript `s.split(sep)` for a one-character separator. Built from the end
      of the string so that the last pieces are easy to relate to suffixes. */
  function Split(s: string, sep: char): (ws: seq<string>)
    ensures |ws| >= 1
    decreases |s|
  {
    if s == [] then [[]]
    else
      var init := Split(s[..|s| - 1], sep);
      if s[|s| - 1] == sep then init + [[]]
      else init[..|init| - 1] + [init[|init| - 1] + [s[|s| - 1]]]
  }

  /** `ws.join(sep)`, the inverse of Split. */
  function Join(ws: seq<string>, sep: char): string
    requires |ws| >= 1
    decreases |ws|
  {
    if |ws| == 1 then ws[0] else Join(ws[..|ws| - 1], sep) + [sep] + ws[|ws| - 1]
  }

  function Last<T>(ws: seq<T>): T
    requires |ws| >= 1
  {
    ws[|ws| - 1]
  }

  lemma AppendAssoc<T>(a: seq<T>, b: seq<T>, c: seq<T>)
    ensures a + (b + c) == (a + b) + c
  {
  }

  /** Joining one more piece appends the separator and that piece. */
  lemma JoinSnoc(ws: seq<string>, w: string, sep: char)
    requires |ws| >= 1
    ensures Join(ws + [w], sep) == Join(ws, sep) + [sep] + w
  {
    assert (ws + [w])[..|ws|] == ws;
  }

  /** Extending the last piece by a character extends the joined string by it. */
  lemma JoinExtendLast(ws: seq<string>, c: char, sep: char)
    requires |ws| >= 1
    ensures Join(ws[..|ws| - 1] + [ws[|ws| - 1] + [c]], sep) == Join(ws, sep) + [c]
  {
    var n := |ws|;
    var v := ws[..n - 1] + [ws[n - 1] + [c]];
    if n > 1 {
      assert v[..n - 1] == ws[..n - 1];
      var front := Join(ws[..n - 1], sep) + [sep];
      assert Join(v, sep) == front + (ws[n - 1] + [c]);
      assert Join(ws, sep) == front + ws[n - 1];
      AppendAssoc(front, ws[n - 1], [c]);
    }
  }

  /** Splitting and joining again gives back the string. */
  lemma {:induction false} JoinSplit(s: string, sep: char)
    ensures Join(Split(s, sep), sep) == s
    decreases |s|
  {
    if s != [] {
      var pre, c := s[..|s| - 1], s[|s| - 1];
      assert s == pre + [c];
      var init := Split(pre, sep);
      JoinSplit(pre, sep);
      if c == sep {
        assert Split(s, sep) == init + [[]];
        JoinSnoc(init, [], sep);
        assert Join(init, sep) + [sep] + [] == pre + [c];
      } else {
        assert Split(s, sep) == init[..|init| - 1] + [init[|init| - 1] + [c]];
        JoinExtendLast(init, c, sep);
      }
    }
  }

  /** No piece of a split contains the separator. */
  lemma {:induction false} SplitPiecesFree(s: string, sep: char)
    ensures forall k :: 0 <= k < |Split(s, sep)| ==> sep !in Split(s, sep)[k]
    decreases |s|
  {
    if s != [] {
      SplitPiecesFree(s[..|s| - 1], sep);
    }
  }

  /** w ends s and is a whole piece there: it starts s or follows a separator. */
  predicate EndsWithPiece(s: string, w: string, sep: char)
  {
    EndsWith(s, w) && (|w| == |s| || s[|s| - |w| - 1] == sep)
  }

  /** A whole piece ending a prefix of s sits in s right before the prefix's
      end, at the start of s or after a separator. */
  lemma EndsWithPieceAt(s: string, n: nat, w: string, sep: char)
    requires n <= |s| && EndsWithPiece(s[..n], w, sep)
    ensures |w| <= n && s[n - |w|..n] == w && (|w| == n || s[n - |w| - 1] == sep)
  {
    assert s[..n][n - |w|..] == s[n - |w|..n];
    if |w| < n {
      assert s[..n][n - |w| - 1] == s[n - |w| - 1];
    }
  }

  /** The last piece of a split ends the string and starts it or follows a
      separator. */
  lemma LastPieceIsSuffix(s: string, sep: char)
    ensures EndsWithPiece(s, Last(Split(s, sep)), sep)
  {
    var ws := Split(s, sep);
    JoinSplit(s, sep);
    if |ws| > 1 {
      var front := Join(ws[..|ws| - 1], sep);
      assert s == front + [sep] + ws[|ws| - 1];
      assert s[|s| - |ws[|ws| - 1]| - 1] == sep;
    }
  }

  /** The last two pieces, joined by the separator, end the string and start
      it or follow a separator. */
  lemma LastTwoPiecesAreSuffix(s: string, sep: char)
    requires |Split(s, sep)| >= 2
    ensures var ws := Split(s, sep);
      EndsWithPiece(s, ws[|ws| - 2] + [sep] + ws[|ws| - 1], sep)
  {
    var ws := Split(s, sep);
    var n := |ws|;
    var w := ws[n - 2] + [sep] + ws[n - 1];
    JoinSplit(s, sep);
    assert s == Join(ws[..n - 1], sep) + [sep] + ws[n - 1];
    if n == 2 {
      assert Join(ws[..n - 1], sep) == ws[0];
      assert s == w;
    } else {
      assert ws[..n - 1][..n - 2] == ws[..n - 2];
      var front := Join(ws[..n - 2], sep);
      assert Join(ws[..n - 1], sep) == front + [sep] + ws[n - 2];
      assert s == front + [sep] + w;
      assert s[|s| - |w| - 1] == sep;
    }
  }

  /** A split into one piece gives back the string as that piece. */
  lemma SplitSinglePiece(s: string, sep: char)
    requires |Split(s, sep)| == 1
    ensures Split(s, sep)[0] == s
  {
    JoinSplit(s, sep);
  }

  /** Appending text free of the separator extends the last piece. */
  lemma {:induction false} SplitAppendFree(p: string, b: string, sep: char)
    requires sep !in b
    ensures var ws := Split(p, sep);
      Split(p + b, sep) == ws[..|ws| - 1] + [Last(ws) + b]
    decreases |b|
  {
    if b == [] {
      var ws := Split(p, sep);
      assert p + b == p;
      assert Last(ws) + b == Last(ws);
      assert ws == ws[..|ws| - 1] + [Last(ws)];
    } else {
      var b' := b[..|b| - 1];
      SplitAppendFree(p, b', sep);
      assert (p + b)[..|p + b| - 1] == p + b';
      assert (p + b)[|p + b| - 1] == b[|b| - 1];
      assert b' + [b[|b| - 1]] == b;
      var ws := Split(p, sep);
      var init := Split(p + b', sep);
      assert init[..|init| - 1] == ws[..|ws| - 1];
      assert init[|init| - 1] + [b[|b| - 1]] == Last(ws) + b;
    }
  }

  /** A string without the separator splits into itself alone. */
  lemma SplitWithoutSeparator(s: string, sep: char)
    requires sep !in s
    ensures Split(s, sep) == [s]
  {
    SplitAppendFree([], s, sep);
    assert [] + s == s;
  }

  /** `a + sep + b` with neither part holding the separator splits into a and b. */
  lemma SplitAtSeparator(a: string, b: string, sep: char)
    requires sep !in a && sep !in b
    ensures Split(a + [sep] + b, sep) == [a, b]
  {
    SplitWithoutSeparator(a, sep);
    var p := a + [sep];
    assert p[..|p| - 1] == a;
    assert Split(p, sep) == [a, []];
    SplitAppendFree(p, b, sep);
    assert [] + b == b;
  }

  // ---------------------------------------------------------------------------
  // Case mapping (ASCII letters) and whitespace

  function LowerChar(c: char): char
  {
    if 'A' <= c <= 'Z' then (c as int + 32) as char else c
  }

  function UpperChar(c: char): char
  {
    if 'a' <= c <= 'z' then (c as int - 32) as char else c
  }

  /** `s.toLowerCase()` */
  function Lower(s: string): (r: string)
  {
    seq(|s|, i requires 0 <= i < |s| => LowerChar(s[i]))
  }

  /** `s.toUpperCase()` */
  function Upper(s: string): (r: string)
  {
    seq(|s|, i requires 0 <= i < |s| => UpperChar(s[i]))
  }

  /** Two characters agree upper-cased exactly when they agree lower-cased. */
  lemma UpperLowerAgree(a: char, b: char)
    ensures UpperChar(a) == UpperChar(b) <==> LowerChar(a) == LowerChar(b)
  {
  }

  /** A string equals its upper-case form exactly when it has no lower-case letter. */
  lemma {:induction false} UpperFixedIffNoLower(s: string)
    ensures Upper(s) == s <==> forall i :: 0 <= i < |s| ==> !('a' <= s[i] <= 'z')
  {
    if Upper(s) == s {
      forall i | 0 <= i < |s| ensures !('a' <= s[i] <= 'z') {
        assert Upper(s)[i] == UpperChar(s[i]);
      }
    }
  }

  /** The characters `String.prototype.trim` removes: ECMAScript WhiteSpace and
      LineTerminator code points. */
  predicate IsJsWhitespace(c: char)
  {
    || c == '\t' || c == '\n' || c == '\U{B}' || c == '\U{C}' || c == '\r' || c == ' '
    || c == '\U{A0}' || c == '\U{1680}' || ('\U{2000}' <= c <= '\U{200A}')
    || c == '\U{2028}' || c == '\U{2029}' || c == '\U{202F}' || c == '\U{205F}'
    || c == '\U{3000}' || c == '\U{FEFF}'
  }

  /** `s.trim() === ""` */
  predicate IsBlank(s: string)
  {
    forall i :: 0 <= i < |s| ==> IsJsWhitespace(s[i])
  }

  /** `s.replace(/ /g, '')` */
  function RemoveSpaces(s: string): (r: string)
    ensures ' ' !in r
    ensures |r| <= |s|
    ensures ' ' !in s ==> r == s
  {
    if s == [] then []
    else if s[0] == ' ' then RemoveSpaces(s[1..])
    else [s[0]] + RemoveSpaces(s[1..])
  }

  /** Removing spaces works piece by piece: together with the text without
      spaces staying as it is, this fixes what the removal keeps, in order. */
  lemma {:induction false} RemoveSpacesAppend(a: string, b: string)
    ensures RemoveSpaces(a + b) == RemoveSpaces(a) + RemoveSpaces(b)
    decreases |a|
  {
    if a == [] {
      assert a + b == b;
    } else {
      assert (a + b)[0] == a[0];
      assert (a + b)[1..] == a[1..] + b;
      RemoveSpacesAppend(a[1..], b);
    }
  }

  /** Lower-casing works piece by piece. */
  lemma LowerAppend(a: string, b: string)
    ensures Lower(a + b) == Lower(a) + Lower(b)
  {
  }

  /** Lower-casing neither adds nor removes spaces. */
  lemma LowerKeepsSpaces(s: string)
    ensures ' ' in Lower(s) <==> ' ' in s
  {
    if ' ' in s {
      var i :| 0 <= i < |s| && s[i] == ' ';
      assert Lower(s)[i] == ' ';
    }
  }

  // ---------------------------------------------------------------------------
  // Number to string

  function DigitChar(d: nat): char
    requires d < 10
  {
    ('0' as int + d) as char
  }

  function NatToString(n: nat): string
    decreases n
  {
    if n < 10 then [DigitChar(n)] else NatToString(n / 10) + [DigitChar(n % 10)]
  }

  /** `n.toString()` for an integral number. */
  function IntToString(n: int): string
  {
    if n < 0 then "-" + NatToString(-n) else NatToString(n)
  }
}
