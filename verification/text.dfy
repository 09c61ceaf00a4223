/**
 Whitespace tokenization as done by Python's `str.split()` with no argument:
 the text is split on runs of whitespace and empty tokens are dropped, so
 leading, trailing and repeated whitespace never produce a word.
 */
module Text {

  /** Python's `str.isspace` for one character: the ASCII controls TAB..CR,
      the separators FS..US, SPACE, NEL, NBSP and the Unicode space separators. */
  predicate IsSpace(c: char) {
    || ('\t' <= c <= '\r')
    || ('\U{1C}' <= c <= '\U{1F}')
    || c == ' '
    || c == '\U{85}'
    || c == '\U{A0}'
    || c == '\U{1680}'
    || ('\U{2000}' <= c <= '\U{200A}')
    || c == '\U{2028}'
    || c == '\U{2029}'
    || c == '\U{202F}'
    || c == '\U{205F}'
    || c == '\U{3000}'
  }

  /** A token `str.split()` can produce: non-empty and free of whitespace. */
  predicate IsWord(w: string) {
    |w| > 0 && forall i :: 0 <= i < |w| ==> !IsSpace(w[i])
  }

  /** Length of the leading run of non-whitespace characters of `s`. */
  function TokenLength(s: string): (n: nat)
    ensures n <= |s|
    ensures forall i :: 0 <= i < n ==> !IsSpace(s[i])
    ensures n < |s| ==> IsSpace(s[n])
  {
    if |s| == 0 || IsSpace(s[0]) then 0 else 1 + TokenLength(s[1..])
  }

  /** `s.split()`: the maximal whitespace-free runs of `s`, in order. */
  function Words(s: string): (ws: seq<string>)
    ensures forall k :: 0 <= k < |ws| ==> IsWord(ws[k])
    ensures |ws| <= |s|
    decreases |s|
  {
    if |s| == 0 then []
    else if IsSpace(s[0]) then Words(s[1..])
    else
      var n := TokenLength(s);
      [s[..n]] + Words(s[n..])
  }

  /** The characters of `s` that are not whitespace, in order. */
  function NonSpace(s: string): string {
    if |s| == 0 then []
    else (if IsSpace(s[0]) then [] else [s[0]]) + NonSpace(s[1..])
  }

  /** The tokens glued together with nothing in between. */
  function Concat(ws: seq<string>): string {
    if |ws| == 0 then [] else ws[0] + Concat(ws[1..])
  }

  /** `" ".join(ws)`. */
  function JoinWithSpace(ws: seq<string>): string {
    if |ws| == 0 then []
    else if |ws| == 1 then ws[0]
    else ws[0] + " " + JoinWithSpace(ws[1..])
  }

  lemma {:induction false} NonSpaceAppend(a: string, b: string)
    ensures NonSpace(a + b) == NonSpace(a) + NonSpace(b)
    decreases |a|
  {
    if |a| == 0 {
      assert a + b == b;
    } else {
      assert (a + b)[1..] == a[1..] + b;
      NonSpaceAppend(a[1..], b);
    }
  }

  lemma {:induction false} NonSpaceOfWord(w: string)
    requires forall i :: 0 <= i < |w| ==> !IsSpace(w[i])
    ensures NonSpace(w) == w
    decreases |w|
  {
    if |w| > 0 {
      NonSpaceOfWord(w[1..]);
    }
  }

  /** No character is lost or invented by tokenization: gluing the tokens
      back together gives exactly the non-whitespace characters of `s`. */
  lemma {:induction false} WordsKeepEveryLetter(s: string)
    ensures Concat(Words(s)) == NonSpace(s)
    decreases |s|
  {
    if |s| == 0 {
    } else if IsSpace(s[0]) {
      WordsKeepEveryLetter(s[1..]);
    } else {
      var n := TokenLength(s);
      WordsKeepEveryLetter(s[n..]);
      assert s == s[..n] + s[n..];
      NonSpaceAppend(s[..n], s[n..]);
      NonSpaceOfWord(s[..n]);
      assert Words(s) == [s[..n]] + Words(s[n..]);
      assert ([s[..n]] + Words(s[n..]))[1..] == Words(s[n..]);
    }
  }

  /** A text is blank exactly when it has no non-whitespace character. */
  lemma {:induction false} NonSpaceOfBlank(s: string)
    ensures IsBlank(s) <==> NonSpace(s) == []
    decreases |s|
  {
    if |s| > 0 {
      NonSpaceOfBlank(s[1..]);
      assert IsBlank(s) <==> IsSpace(s[0]) && IsBlank(s[1..]);
    }
  }

  /** A text made only of whitespace has no words, and conversely. */
  lemma NoWordsIffBlank(s: string)
    ensures |Words(s)| == 0 <==> IsBlank(s)
  {
    NonSpaceOfBlank(s);
    WordsKeepEveryLetter(s);
    if |Words(s)| > 0 {
      var ws := Words(s);
      assert Concat(ws) == ws[0] + Concat(ws[1..]);
      assert |ws[0]| > 0;
    }
  }

  lemma {:induction false} WordsOfSpaceThen(s: string)
    ensures Words(" " + s) == Words(s)
  {
    assert (" " + s)[1..] == s;
  }

  /** Splitting undoes joining with single spaces: `" ".join(ws).split() == ws`
      whenever every element of `ws` is a token. */
  lemma {:induction false} WordsOfJoin(ws: seq<string>)
    requires forall k :: 0 <= k < |ws| ==> IsWord(ws[k])
    ensures Words(JoinWithSpace(ws)) == ws
    decreases |ws|
  {
    if |ws| == 0 {
    } else if |ws| == 1 {
      var w := ws[0];
      assert TokenLength(w) == |w| by { TokenLengthOfWord(w, []); }
      assert w[..|w|] == w;
      assert w[|w|..] == [];
    } else {
      var w := ws[0];
      var rest := JoinWithSpace(ws[1..]);
      var s := w + " " + rest;
      assert s == w + (" " + rest);
      TokenLengthOfWord(w, " " + rest);
      assert s[..|w|] == w;
      assert s[|w|..] == " " + rest;
      WordsOfSpaceThen(rest);
      WordsOfJoin(ws[1..]);
      assert Words(s) == [w] + Words(" " + rest);
    }
  }

  /** A token followed by whitespace or nothing is read as exactly one token. */
  lemma {:induction false} TokenLengthOfWord(w: string, tail: string)
    requires IsWord(w)
    requires |tail| == 0 || IsSpace(tail[0])
    ensures TokenLength(w + tail) == |w|
    decreases |w|
  {
    if |w| == 1 {
      assert (w + tail)[1..] == tail;
    } else {
      assert (w + tail)[1..] == w[1..] + tail;
      TokenLengthOfWord(w[1..], tail);
    }
  }

  /** A text made only of whitespace. */
  predicate IsBlank(s: string) {
    forall i :: 0 <= i < |s| ==> IsSpace(s[i])
  }

  /** The run of non-whitespace at the head of `a` stops where `a` stops
      when whitespace follows it. */
  lemma {:induction false} TokenLengthBeforeSpace(a: string, t: string)
    requires |t| > 0 && IsSpace(t[0])
    ensures TokenLength(a + t) == TokenLength(a)
    decreases |a|
  {
    if |a| == 0 {
      assert a + t == t;
    } else if !IsSpace(a[0]) {
      assert (a + t)[1..] == a[1..] + t;
      TokenLengthBeforeSpace(a[1..], t);
    }
  }

  /** Leading whitespace, of any kind and length, produces no token. */
  lemma {:induction false} WordsAfterBlank(sep: string, b: string)
    requires IsBlank(sep)
    ensures Words(sep + b) == Words(b)
    decreases |sep|
  {
    if |sep| == 0 {
      assert sep + b == b;
    } else {
      assert (sep + b)[1..] == sep[1..] + b;
      WordsAfterBlank(sep[1..], b);
    }
  }

  /** Tokens are the maximal whitespace-free runs: any non-empty run of
      whitespace splits the text into the tokens before it and the tokens
      after it, and never splits or joins tokens on either side. */
  lemma {:induction false} WordsSplitAtBlank(a: string, sep: string, b: string)
    requires |sep| > 0 && IsBlank(sep)
    ensures Words(a + sep + b) == Words(a) + Words(b)
    decreases |a|
  {
    var s := a + sep + b;
    if |a| == 0 {
      assert s == sep + b;
      WordsAfterBlank(sep, b);
    } else if IsSpace(a[0]) {
      assert s[1..] == a[1..] + sep + b;
      WordsSplitAtBlank(a[1..], sep, b);
    } else {
      var m := TokenLength(a);
      assert s == a + (sep + b);
      TokenLengthBeforeSpace(a, sep + b);
      assert s[..m] == a[..m];
      assert s[m..] == a[m..] + sep + b;
      WordsSplitAtBlank(a[m..], sep, b);
      assert Words(a) == [a[..m]] + Words(a[m..]);
      assert Words(s) == [s[..m]] + Words(s[m..]);
    }
  }

  /** Trailing whitespace produces no token either. */
  lemma WordsBeforeBlank(a: string, sep: string)
    requires |sep| > 0 && IsBlank(sep)
    ensures Words(a + sep) == Words(a)
  {
    WordsSplitAtBlank(a, sep, []);
    assert a + sep + [] == a + sep;
  }
}
