/** The technologies transform of the project form: the raw, comma-separated
    technologies string is split on ",", every piece is trimmed, and the pieces
    that are empty after trimming are dropped, keeping their order. */
module Tokenizer {

  const Comma: char := ','

  /** The characters that JavaScript's String.prototype.trim strips: the
      ECMAScript WhiteSpace and LineTerminator code points. */
  predicate IsTrimSpace(c: char) {
    c == '\t' || c == '\n' || c == '\U{0B}' || c == '\U{0C}' || c == '\r' || c == ' '
    || c == '\U{A0}' || c == '\U{1680}' || ('\U{2000}' <= c <= '\U{200A}')
    || c == '\U{2028}' || c == '\U{2029}' || c == '\U{202F}' || c == '\U{205F}'
    || c == '\U{3000}' || c == '\U{FEFF}'
  }

  predicate AllSpace(s: string) {
    forall i :: 0 <= i < |s| ==> IsTrimSpace(s[i])
  }

  // ---------------------------------------------------------------------------
  // split(",")
  // ---------------------------------------------------------------------------

  /** JavaScript's s.split(","): the maximal comma-free runs of s, in order.
      There is always at least one piece ("".split(",") is [""]), and a comma
      at either end yields an empty piece there. */
  function Split(s: string): (pieces: seq<string>)
    ensures |pieces| >= 1
    ensures forall i :: 0 <= i < |pieces| ==> Comma !in pieces[i]
    decreases |s|
  {
    if s == [] then [[]]
    else
      var rest := Split(s[1..]);
      if s[0] == Comma then [[]] + rest
      else [[s[0]] + rest[0]] + rest[1..]
  }

  /** JavaScript's pieces.join(","): the inverse of Split. */
  function Join(pieces: seq<string>): string
    decreases |pieces|
  {
    if pieces == [] then []
    else if |pieces| == 1 then pieces[0]
    else pieces[0] + [Comma] + Join(pieces[1..])
  }

  /** Splitting loses nothing: joining the pieces back gives the input. */
  lemma {:induction false} JoinSplit(s: string)
    ensures Join(Split(s)) == s
    decreases |s|
  {
    if s != [] {
      var rest := Split(s[1..]);
      JoinSplit(s[1..]);
      if s[0] == Comma {
        assert Split(s) == [[]] + rest;
        assert Join(Split(s)) == [] + [Comma] + Join(rest);
        assert s == [s[0]] + s[1..];
      } else if |rest| == 1 {
        assert Split(s) == [[s[0]] + rest[0]];
        assert s == [s[0]] + s[1..];
      } else {
        var first := [s[0]] + rest[0];
        assert Split(s) == [first] + rest[1..];
        assert ([first] + rest[1..])[1..] == rest[1..];
        assert Join(Split(s)) == first + [Comma] + Join(rest[1..]);
        assert Join(rest) == rest[0] + [Comma] + Join(rest[1..]);
        assert s == [s[0]] + s[1..];
      }
    }
  }

  /** A string without a comma is a single piece. */
  lemma {:induction false} SplitNoComma(p: string)
    requires Comma !in p
    ensures Split(p) == [p]
    decreases |p|
  {
    if p != [] {
      assert Comma !in p[1..] by {
        forall i | 0 <= i < |p[1..]| ensures p[1..][i] != Comma { assert p[1..][i] == p[i + 1]; }
      }
      SplitNoComma(p[1..]);
      assert p == [p[0]] + p[1..];
    }
  }

  /** A comma separates: the pieces of a + "," + b are those of a followed by
      those of b. */
  lemma {:induction false} SplitComma(a: string, b: string)
    ensures Split(a + [Comma] + b) == Split(a) + Split(b)
    decreases |a|
  {
    if a == [] {
      assert a + [Comma] + b == [Comma] + b;
    } else {
      var s := a + [Comma] + b;
      assert s[0] == a[0] && s[1..] == a[1..] + [Comma] + b;
      SplitComma(a[1..], b);
      if a[0] != Comma {
        var ra := Split(a[1..]);
        assert Split(s) == [[a[0]] + ra[0]] + (ra[1..] + Split(b)) by {
          assert (ra + Split(b))[0] == ra[0];
          assert (ra + Split(b))[1..] == ra[1..] + Split(b);
        }
      }
    }
  }

  /** Splitting undoes joining comma-free pieces, so Split and Join are
      mutually inverse. */
  lemma {:induction false} SplitJoin(pieces: seq<string>)
    requires |pieces| >= 1
    requires forall i :: 0 <= i < |pieces| ==> Comma !in pieces[i]
    ensures Split(Join(pieces)) == pieces
    decreases |pieces|
  {
    SplitNoComma(pieces[0]);
    if |pieces| > 1 {
      SplitJoin(pieces[1..]);
      SplitComma(pieces[0], Join(pieces[1..]));
      assert pieces == [pieces[0]] + pieces[1..];
    }
  }

  // ---------------------------------------------------------------------------
  // trim()
  // ---------------------------------------------------------------------------

  /** Where the non-whitespace part of s starts: the index of its first
      non-space character, or |s| when there is none. */
  function TrimStartIndex(s: string): (i: nat)
    ensures i <= |s| && AllSpace(s[..i])
    ensures i == |s| || !IsTrimSpace(s[i])
    decreases |s|
  {
    if s != [] && IsTrimSpace(s[0]) then
      var k := TrimStartIndex(s[1..]);
      assert forall m :: 0 <= m < k + 1 ==> s[m] == if m == 0 then s[0] else s[1..][..k][m - 1];
      k + 1
    else 0
  }

  /** Where the non-whitespace part of s ends: one past the index of its last
      non-space character, or 0 when there is none. */
  function TrimEndIndex(s: string): (j: nat)
    ensures j <= |s| && AllSpace(s[j..])
    ensures j == 0 || !IsTrimSpace(s[j - 1])
    decreases |s|
  {
    if s != [] && IsTrimSpace(s[|s| - 1]) then
      var k := TrimEndIndex(s[..|s| - 1]);
      assert forall m :: k <= m < |s| ==> s[m] == if m == |s| - 1 then s[m] else s[..|s| - 1][k..][m - k];
      k
    else |s|
  }

  /** JavaScript's s.trim(): leading whitespace is stripped, then trailing
      whitespace. */
  function Trim(s: string): (r: string)
    ensures r == [] || (!IsTrimSpace(r[0]) && !IsTrimSpace(r[|r| - 1]))
  {
    var t := s[TrimStartIndex(s)..];
    t[..TrimEndIndex(t)]
  }

  /** Trim removes only whitespace: its result is an infix s[i..j] with
      nothing but whitespace on either side of it. */
  lemma TrimIsInfix(s: string)
    ensures var i := TrimStartIndex(s); var r := Trim(s);
      i + |r| <= |s| && r == s[i..i + |r|]
      && AllSpace(s[..i]) && AllSpace(s[i + |r|..])
  {
    var i := TrimStartIndex(s);
    var t := s[i..];
    var j := TrimEndIndex(t);
    assert Trim(s) == t[..j];
    assert |Trim(s)| == j;
    assert t[..j] == s[i..i + j];
    assert t[j..] == s[i + j..];
  }

  /** Trim gives the empty string exactly for an all-whitespace input. */
  lemma TrimEmpty(s: string)
    ensures Trim(s) == [] <==> AllSpace(s)
  {
    var i := TrimStartIndex(s);
    var t := s[i..];
    if Trim(s) == [] {
      assert TrimEndIndex(t) == 0;
      assert t[0..] == t;
      assert s == s[..i] + t;
    }
  }

  /** Trim adds no character: whatever occurs in Trim(s) occurs in s. */
  lemma TrimKeepsChars(s: string, c: char)
    requires c in Trim(s)
    ensures c in s
  {
    TrimIsInfix(s);
    var i := TrimStartIndex(s);
    var k :| 0 <= k < |Trim(s)| && Trim(s)[k] == c;
    assert s[i + k] == c;
  }

  /** The first non-space index is the only index with whitespace before it
      and a non-space character (or the end) at it. */
  lemma StartIndexUnique(s: string, i: nat)
    requires i <= |s| && AllSpace(s[..i])
    requires i == |s| || !IsTrimSpace(s[i])
    ensures TrimStartIndex(s) == i
  {
    var k := TrimStartIndex(s);
    forall m | 0 <= m < k ensures IsTrimSpace(s[m]) { assert s[..k][m] == s[m]; }
    forall m | 0 <= m < i ensures IsTrimSpace(s[m]) { assert s[..i][m] == s[m]; }
  }

  /** Symmetrically for the end of the non-whitespace part. */
  lemma EndIndexUnique(s: string, j: nat)
    requires j <= |s| && AllSpace(s[j..])
    requires j == 0 || !IsTrimSpace(s[j - 1])
    ensures TrimEndIndex(s) == j
  {
    var k := TrimEndIndex(s);
    forall m | k <= m < |s| ensures IsTrimSpace(s[m]) { assert s[k..][m - k] == s[m]; }
    forall m | j <= m < |s| ensures IsTrimSpace(s[m]) { assert s[j..][m - j] == s[m]; }
  }

  /** Trim is determined by what it promises: any infix s[i..j] that has only
      whitespace around it and that starts and ends with a non-space character
      (or is empty because s is all whitespace) is Trim(s). */
  lemma TrimUnique(s: string, i: nat, j: nat)
    requires i <= j <= |s|
    requires AllSpace(s[..i]) && AllSpace(s[j..])
    requires (i == j && AllSpace(s))
          || (i < j && !IsTrimSpace(s[i]) && !IsTrimSpace(s[j - 1]))
    ensures Trim(s) == s[i..j]
  {
    if i == j {
      TrimEmpty(s);
    } else {
      StartIndexUnique(s, i);
      var t := s[i..];
      assert t[j - i..] == s[j..];
      EndIndexUnique(t, j - i);
      assert t[..j - i] == s[i..j];
    }
  }

  /** Trimming twice is trimming once. */
  lemma TrimIdempotent(s: string)
    ensures Trim(Trim(s)) == Trim(s)
  {
    var r := Trim(s);
    assert r[..0] == [] && r[|r|..] == [];
    assert r[0..|r|] == r;
    TrimUnique(r, 0, |r|);
  }

  // ---------------------------------------------------------------------------
  // map(trim), filter(non-empty) and the whole transform
  // ---------------------------------------------------------------------------

  /** pieces.map((item) => item.trim()) */
  function TrimAll(pieces: seq<string>): (r: seq<string>)
    ensures |r| == |pieces|
    ensures forall i :: 0 <= i < |pieces| ==> r[i] == Trim(pieces[i])
    decreases |pieces|
  {
    if pieces == [] then [] else [Trim(pieces[0])] + TrimAll(pieces[1..])
  }

  /** pieces.filter((item) => item !== "") */
  function DropEmpty(pieces: seq<string>): (r: seq<string>)
    ensures |r| <= |pieces|
    ensures forall i :: 0 <= i < |r| ==> r[i] != []
    decreases |pieces|
  {
    if pieces == [] then []
    else (if pieces[0] == [] then [] else [pieces[0]]) + DropEmpty(pieces[1..])
  }

  /** The technologies array sent with a new project; it has no empty
      entry. */
  function Tokens(raw: string): (r: seq<string>)
    ensures forall i :: 0 <= i < |r| ==> r[i] != []
  {
    DropEmpty(TrimAll(Split(raw)))
  }

  /** What a technology token looks like. */
  predicate IsToken(t: string) {
    t != [] && Comma !in t && !IsTrimSpace(t[0]) && !IsTrimSpace(t[|t| - 1])
  }

  /** Dropping the empty pieces keeps exactly the non-empty ones. */
  lemma {:induction false} DropEmptyMembers(pieces: seq<string>, t: string)
    ensures t in DropEmpty(pieces) <==> t != [] && t in pieces
    decreases |pieces|
  {
    if pieces != [] {
      DropEmptyMembers(pieces[1..], t);
      assert pieces == [pieces[0]] + pieces[1..];
    }
  }

  lemma {:induction false} DropEmptyConcat(a: seq<string>, b: seq<string>)
    ensures DropEmpty(a + b) == DropEmpty(a) + DropEmpty(b)
    decreases |a|
  {
    if a != [] {
      assert (a + b)[1..] == a[1..] + b;
      DropEmptyConcat(a[1..], b);
    } else {
      assert a + b == b;
    }
  }

  /** Every token is non-empty, has no comma and has no whitespace at either
      end. */
  lemma TokensAreTokens(raw: string)
    ensures forall t :: t in Tokens(raw) ==> IsToken(t)
  {
    forall t | t in Tokens(raw) ensures IsToken(t) {
      TokensMembers(raw, t);
      var i :| 0 <= i < |Split(raw)| && Trim(Split(raw)[i]) == t;
      var p := Split(raw)[i];
      assert Comma !in p;
      if Comma in t {
        TrimKeepsChars(p, Comma);
      }
    }
  }

  /** The tokens are exactly the non-empty trimmed pieces of the input. */
  lemma TokensMembers(raw: string, t: string)
    ensures t in Tokens(raw) ==>
      t != [] && exists i :: 0 <= i < |Split(raw)| && Trim(Split(raw)[i]) == t
    ensures (t != [] && exists i :: 0 <= i < |Split(raw)| && Trim(Split(raw)[i]) == t) ==> t in Tokens(raw)
  {
    var pieces := Split(raw);
    KeptMembers(pieces, t);
    assert Tokens(raw) == DropEmpty(TrimAll(pieces));
  }

  lemma KeptMembers(pieces: seq<string>, t: string)
    ensures t in DropEmpty(TrimAll(pieces)) <==>
      t != [] && exists i :: 0 <= i < |pieces| && Trim(pieces[i]) == t
  {
    var trimmed := TrimAll(pieces);
    DropEmptyMembers(trimmed, t);
    if t in trimmed {
      var i :| 0 <= i < |trimmed| && trimmed[i] == t;
      assert Trim(pieces[i]) == t;
    }
  }

  /** Order is kept: the tokens of a + "," + b are those of a followed by
      those of b. */
  lemma TokensComma(a: string, b: string)
    ensures Tokens(a + [Comma] + b) == Tokens(a) + Tokens(b)
  {
    SplitComma(a, b);
    TrimAllConcat(Split(a), Split(b));
    DropEmptyConcat(TrimAll(Split(a)), TrimAll(Split(b)));
  }

  lemma TrimAllConcat(p: seq<string>, q: seq<string>)
    ensures TrimAll(p + q) == TrimAll(p) + TrimAll(q)
  {
  }

  /** A comma-free input is one token, its trimmed self, unless that is empty. */
  lemma TokensOfPiece(p: string)
    requires Comma !in p
    ensures Tokens(p) == if Trim(p) == [] then [] else [Trim(p)]
  {
    SplitNoComma(p);
    assert TrimAll([p]) == [Trim(p)];
    assert DropEmpty([Trim(p)]) == (if Trim(p) == [] then [] else [Trim(p)]) + DropEmpty([]);
  }

  /** The empty input and an input of separators and whitespace give no
      tokens. */
  lemma TokensOfBlank()
    ensures Tokens("") == []
    ensures Tokens(" , ") == []
  {
    TokensOfPiece("");
    assert " , " == " " + [Comma] + " ";
    TokensComma(" ", " ");
    TokensOfPiece(" ");
    TrimEmpty(" ");
  }

  /** "React, Node.js ,, Python" gives the three names in order. */
  lemma TokensExample()
    ensures Tokens("React, Node.js ,, Python") == ["React", "Node.js", "Python"]
  {
    ExampleByPieces();
    TokensReact();
    TokensNode();
    TokensOfPiece("");
    TokensPython();
    AppendSingles(Tokens("React"), Tokens(" Node.js "), Tokens(""), Tokens(" Python"),
                  "React", "Node.js", "Python");
  }

  /** Sequence facts kept out of the contexts above, where the token terms
      around them make the solver slow. */
  lemma AppendSingles<T>(p: seq<T>, q: seq<T>, e: seq<T>, r: seq<T>, x: T, y: T, z: T)
    requires p == [x] && q == [y] && e == [] && r == [z]
    ensures p + q + e + r == [x, y, z]
  {
  }

  lemma AppendPair<T>(p: seq<T>, q: seq<T>, x: T, y: T)
    requires p == [x] && q == [y]
    ensures p + q == [x, y]
  {
  }

  lemma ExampleByPieces()
    ensures Tokens("React, Node.js ,, Python")
         == Tokens("React") + Tokens(" Node.js ") + Tokens("") + Tokens(" Python")
  {
    assert "React, Node.js ,, Python"
        == "React" + [Comma] + " Node.js " + [Comma] + "" + [Comma] + " Python";
    TokensOfFour("React", " Node.js ", "", " Python");
  }

  lemma TokensReact()
    ensures Tokens("React") == ["React"]
  {
    var p := "React";
    assert p[0..5] == p;
    assert AllSpace(p[..0]) && AllSpace(p[5..]);
    TrimmedPiece(p, 0, 5);
  }

  lemma TokensNode()
    ensures Tokens(" Node.js ") == ["Node.js"]
  {
    var p := " Node.js ";
    assert p[1..8] == "Node.js";
    assert AllSpace(p[..1]) && AllSpace(p[8..]);
    TrimmedPiece(p, 1, 8);
  }

  lemma TokensPython()
    ensures Tokens(" Python") == ["Python"]
  {
    var p := " Python";
    assert p[1..7] == "Python";
    assert AllSpace(p[..1]) && AllSpace(p[7..]);
    TrimmedPiece(p, 1, 7);
  }

  lemma TokensOfFour(a: string, b: string, c: string, d: string)
    ensures Tokens(a + [Comma] + b + [Comma] + c + [Comma] + d)
         == Tokens(a) + Tokens(b) + Tokens(c) + Tokens(d)
  {
    var cd := c + [Comma] + d;
    var bcd := b + [Comma] + cd;
    assert a + [Comma] + b + [Comma] + c + [Comma] + d == a + [Comma] + bcd;
    TokensComma(c, d);
    TokensComma(b, cd);
    TokensComma(a, bcd);
    AppendAssoc(Tokens(a), Tokens(b), Tokens(c), Tokens(d));
  }

  lemma AppendAssoc<T>(p: seq<T>, q: seq<T>, r: seq<T>, s: seq<T>)
    ensures p + (q + (r + s)) == p + q + r + s
  {
  }

  /** A comma-free piece p whose non-blank part is p[i..j] gives the single
      token p[i..j]. */
  lemma TrimmedPiece(p: string, i: nat, j: nat)
    requires Comma !in p && i < j <= |p|
    requires AllSpace(p[..i]) && AllSpace(p[j..])
    requires !IsTrimSpace(p[i]) && !IsTrimSpace(p[j - 1])
    ensures Tokens(p) == [p[i..j]]
  {
    TrimUnique(p, i, j);
    TokensOfPiece(p);
  }
}
