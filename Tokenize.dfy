/**
  The tokenising step the table reader applies to every line it reads:
  `line.Split(new[] { ' ' }, StringSplitOptions.RemoveEmptyEntries)`.
  Only the space character separates; tabs and other white space are ordinary
  characters. Empty entries (produced by leading, trailing or repeated spaces)
  are dropped.
 */
module Tokenize {

  /** A token as Split with RemoveEmptyEntries yields it: non-empty, no space. */
  predicate IsWord(w: string) {
    w != [] && ' ' !in w
  }

  /** True when the line consists of spaces only (the empty line included). */
  predicate IsBlank(s: string) {
    forall i :: 0 <= i < |s| ==> s[i] == ' '
  }

  /** The length of the run of non-space characters at the start of `s`. */
  function WordEnd(s: string): (n: nat)
    ensures n <= |s|
    ensures forall i :: 0 <= i < n ==> s[i] != ' '
    ensures n < |s| ==> s[n] == ' '
    decreases |s|
  {
    if s == [] || s[0] == ' ' then 0 else 1 + WordEnd(s[1..])
  }

  /** The non-empty, space-separated substrings of `s`, in order. */
  function Tokens(s: string): seq<string>
    decreases |s|
  {
    if s == [] then []
    else if s[0] == ' ' then Tokens(s[1..])
    else
      var n := WordEnd(s);
      [s[..n]] + Tokens(s[n..])
  }

  /** The words joined with one space between neighbours. */
  function JoinWords(ws: seq<string>): string
  {
    if ws == [] then ""
    else if |ws| == 1 then ws[0]
    else ws[0] + " " + JoinWords(ws[1..])
  }

  /** Every token is non-empty and free of spaces. */
  lemma {:induction false} TokensAreWords(s: string)
    ensures forall k :: 0 <= k < |Tokens(s)| ==> IsWord(Tokens(s)[k])
    decreases |s|
  {
    if s != [] {
      if s[0] == ' ' {
        TokensAreWords(s[1..]);
      } else {
        var n := WordEnd(s);
        TokensAreWords(s[n..]);
      }
    }
  }

  /** A line yields no tokens exactly when it is blank. */
  lemma {:induction false} TokensEmptyIffBlank(s: string)
    ensures Tokens(s) == [] <==> IsBlank(s)
    decreases |s|
  {
    if s != [] {
      if s[0] == ' ' {
        TokensEmptyIffBlank(s[1..]);
        if IsBlank(s[1..]) {
          forall i | 0 <= i < |s| ensures s[i] == ' ' {
            if i > 0 { assert s[i] == s[1..][i - 1]; }
          }
        } else {
          var i :| 0 <= i < |s[1..]| && s[1..][i] != ' ';
          assert s[i + 1] != ' ';
        }
      } else {
        assert !IsBlank(s);
      }
    }
  }

  /** A space separates: the tokens of `a + " " + b` are those of `a` followed by those of `b`. */
  lemma {:induction false} TokensSplitAtSpace(a: string, b: string)
    ensures Tokens(a + " " + b) == Tokens(a) + Tokens(b)
    decreases |a|
  {
    var t := " " + b;
    var s := a + t;
    assert a + " " + b == s;
    if a == [] {
      assert s == t && t[1..] == b;
    } else if a[0] == ' ' {
      assert s[0] == ' ' && s[1..] == a[1..] + t;
      TokensSplitAtSpace(a[1..], b);
      assert a[1..] + " " + b == a[1..] + t;
    } else {
      var n := WordEnd(a);
      WordEndPrefix(a, t);
      assert s[0] == a[0];
      assert s[..n] == a[..n];
      assert s[n..] == a[n..] + t;
      var w := [a[..n]];
      assert Tokens(s) == w + Tokens(a[n..] + t);
      TokensSplitAtSpace(a[n..], b);
      assert a[n..] + " " + b == a[n..] + t;
      assert Tokens(a) == w + Tokens(a[n..]);
      assert w + (Tokens(a[n..]) + Tokens(b)) == (w + Tokens(a[n..])) + Tokens(b);
    }
  }

  /** Extending a string whose word stops at a space, or at its end before a space, keeps the word. */
  lemma {:induction false} WordEndPrefix(a: string, t: string)
    requires t != [] && t[0] == ' '
    ensures WordEnd(a + t) == WordEnd(a)
    decreases |a|
  {
    if a == [] {
      assert (a + t)[0] == ' ';
    } else if a[0] != ' ' {
      assert (a + t)[1..] == a[1..] + t;
      WordEndPrefix(a[1..], t);
    }
  }

  /** A single word is its own only token. */
  lemma {:induction false} TokensOfWord(w: string)
    requires IsWord(w)
    ensures Tokens(w) == [w]
  {
    var n := WordEnd(w);
    assert n == |w|;
    assert w[..n] == w;
    assert w[n..] == [];
  }

  /** Round trip: splitting words joined with single spaces gives the words back. */
  lemma {:induction false} TokensOfJoinWords(ws: seq<string>)
    requires forall k :: 0 <= k < |ws| ==> IsWord(ws[k])
    ensures Tokens(JoinWords(ws)) == ws
    decreases |ws|
  {
    if ws == [] {
    } else if |ws| == 1 {
      TokensOfWord(ws[0]);
    } else {
      TokensOfWord(ws[0]);
      TokensOfJoinWords(ws[1..]);
      TokensSplitAtSpace(ws[0], JoinWords(ws[1..]));
      assert [ws[0]] + ws[1..] == ws;
    }
  }
}
