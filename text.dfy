/** The Python string operations the transcriber relies on: `str.lstrip(chars)`,
    the argument-less `str.split()`, and text built from words that each carry
    a leading space. */
module Text {

  /** The characters stripped from the front of every paragraph: Python's
      `string.punctuation`, written out as in the source. */
  const StripChars: string := "!\"#$%&'()*+,-./:;<=>?@[\\]^_`{|}~"

  /** The 29 characters for which Python's `str.isspace` holds; the
      argument-less `str.split` separates words at runs of them. */
  predicate IsSpace(c: char) {
    ('\t' <= c <= '\r') || ('\U{1C}' <= c <= ' ') || c == '\U{85}' || c == '\U{A0}'
    || c == '\U{1680}' || ('\U{2000}' <= c <= '\U{200A}') || c == '\U{2028}' || c == '\U{2029}'
    || c == '\U{202F}' || c == '\U{205F}' || c == '\U{3000}'
  }

  /** A word as `split` returns it: non-empty and free of whitespace. */
  predicate IsWord(w: string) {
    w != [] && forall i :: 0 <= i < |w| ==> !IsSpace(w[i])
  }

  /** `s.lstrip(chars)`: `s` without its leading characters that belong to `chars`. */
  function LStrip(s: string, chars: string): string
    decreases |s|
  {
    if s != [] && s[0] in chars then LStrip(s[1..], chars) else s
  }

  /** `lstrip` removes the longest prefix made of characters of `chars`: what it
      removes is all in `chars`, and what is left does not start with one. */
  lemma {:induction false} LStripRemovesPrefix(s: string, chars: string)
    ensures var r := LStrip(s, chars);
      && |r| <= |s| && r == s[|s| - |r|..]
      && (forall i :: 0 <= i < |s| - |r| ==> s[i] in chars)
      && (r == [] || r[0] !in chars)
    decreases |s|
  {
    if s != [] && s[0] in chars {
      LStripRemovesPrefix(s[1..], chars);
    }
  }

  /** `[w]` for a non-empty word `w`, nothing for the empty one. */
  function Flush(w: string): seq<string>
  {
    if w == [] then [] else [w]
  }

  /** The words of `s` when the partial word `cur` has already been read. */
  function SplitFrom(s: string, cur: string): seq<string>
    decreases |s|
  {
    if s == [] then Flush(cur)
    else if IsSpace(s[0]) then Flush(cur) + SplitFrom(s[1..], [])
    else SplitFrom(s[1..], cur + [s[0]])
  }

  /** `s.split()` with no separator: the maximal whitespace-free runs of `s`, in order. */
  function Split(s: string): seq<string>
  {
    SplitFrom(s, [])
  }

  /** The concatenation of `" " + w` over the words `ws`. */
  function Spaced(ws: seq<string>): string
  {
    if ws == [] then [] else " " + ws[0] + Spaced(ws[1..])
  }

  lemma {:induction false} SplitFromWord(w: string, rest: string, cur: string)
    requires forall i :: 0 <= i < |w| ==> !IsSpace(w[i])
    ensures SplitFrom(w + rest, cur) == SplitFrom(rest, cur + w)
    decreases |w|
  {
    if w == [] {
      assert w + rest == rest && cur + w == cur;
    } else {
      assert (w + rest)[0] == w[0];
      assert (w + rest)[1..] == w[1..] + rest;
      assert cur + [w[0]] + w[1..] == cur + w;
      SplitFromWord(w[1..], rest, cur + [w[0]]);
    }
  }

  lemma {:induction false} SplitFromSpaced(ws: seq<string>, cur: string)
    requires forall k :: 0 <= k < |ws| ==> IsWord(ws[k])
    ensures SplitFrom(Spaced(ws), cur) == Flush(cur) + ws
    decreases |ws|
  {
    if ws == [] {
    } else {
      var w, rest := ws[0], Spaced(ws[1..]);
      assert Spaced(ws) == " " + (w + rest);
      assert (" " + (w + rest))[1..] == w + rest;
      assert IsWord(w);
      SplitFromWord(w, rest, []);
      assert [] + w == w;
      SplitFromSpaced(ws[1..], w);
      assert ws == [w] + ws[1..];
    }
  }

  /** Splitting words that were joined with leading spaces gives them back. */
  lemma SplitSpaced(ws: seq<string>)
    requires forall k :: 0 <= k < |ws| ==> IsWord(ws[k])
    ensures Split(Spaced(ws)) == ws
  {
    SplitFromSpaced(ws, []);
  }

  /** `lstrip` stops at the first character outside the set, here the space
      after the exclamation mark, which therefore stays. */
  lemma LStripKeepsSpace()
    ensures LStrip("! Hello world.", StripChars) == " Hello world."
  {
    assert StripChars[0] == '!';
    LStripPrefix("!", " Hello world.", StripChars);
  }

  /** `lstrip` removes a prefix made of characters of the set when the rest
      does not start with one. */
  lemma {:induction false} LStripPrefix(p: string, s: string, chars: string)
    requires forall i :: 0 <= i < |p| ==> p[i] in chars
    requires s == [] || s[0] !in chars
    ensures LStrip(p + s, chars) == s
    decreases |p|
  {
    if p == [] {
      assert p + s == s;
    } else {
      assert (p + s)[0] == p[0];
      assert (p + s)[1..] == p[1..] + s;
      LStripPrefix(p[1..], s, chars);
    }
  }
}
