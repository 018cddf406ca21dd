/** The canonical form of an appraiser's company name (backend/src/dispute.ts), the form that is stored and
    hashed: words separated by single spaces, without control or invisible characters. */
module AppraiserName {
  import opened Basics

  /** A Unicode code point. A lone surrogate counts as the three bytes of its replacement. */
  type CodePoint = nat

  type Text = seq<CodePoint>

  const SPACE: CodePoint := 0x20

  /** Unicode White_Space. */
  predicate IsWhitespace(c: CodePoint) {
    || 0x09 <= c <= 0x0d || c == 0x20 || c == 0x85 || c == 0xa0 || c == 0x1680 || 0x2000 <= c <= 0x200a
    || 0x2028 <= c <= 0x2029 || c == 0x202f || c == 0x205f || c == 0x3000
  }

  /** Unicode format and bidi-control characters. */
  predicate IsInvisible(c: CodePoint) {
    || c == 0xad || 0x600 <= c <= 0x605 || c == 0x61c || c == 0x6dd || c == 0x70f || c == 0x180e
    || 0x200b <= c <= 0x200f
    || 0x202a <= c <= 0x202e || 0x2060 <= c <= 0x2064 || 0x2066 <= c <= 0x206f || 0xfe00 <= c <= 0xfe0f || c == 0xfeff
    || 0xfff9 <= c <= 0xfffb || c == 0xe0001 || 0xe0020 <= c <= 0xe007f || 0xe0100 <= c <= 0xe01ef
  }

  predicate IsControl(c: CodePoint) {
    c <= 0x1f || 0x7f <= c <= 0x9f
  }

  /** Bytes of UTF-8 (section 3 of RFC 3629). */
  function Width(c: CodePoint): nat {
    if c < 0x80 then 1 else if c < 0x800 then 2 else if c < 0x1_0000 then 3 else 4
  }

  function ByteLength(t: Text): nat {
    if t == [] then 0 else ByteLength(t[..|t| - 1]) + Width(t[|t| - 1])
  }

  /** The pieces between whitespace characters, empty ones included. */
  function Split(t: Text): (pieces: seq<Text>)
    ensures pieces != []
  {
    if t == [] then [[]]
    else
      var before := Split(t[..|t| - 1]);
      if IsWhitespace(t[|t| - 1]) then before + [[]]
      else before[..|before| - 1] + [before[|before| - 1] + [t[|t| - 1]]]
  }

  function NonEmpty(pieces: seq<Text>): seq<Text> {
    if pieces == [] then []
    else NonEmpty(pieces[..|pieces| - 1]) + if pieces[|pieces| - 1] == [] then [] else [pieces[|pieces| - 1]]
  }

  function Words(t: Text): seq<Text> {
    NonEmpty(Split(t))
  }

  function Join(words: seq<Text>): Text {
    if words == [] then [] else if |words| == 1 then words[0]
    else Join(words[..|words| - 1]) + [SPACE] + words[|words| - 1]
  }

  datatype Invalid = Empty | TooLong | HasControl | HasInvisible

  function Display(raw: Text, limit: nat): Result<Text, Invalid> {
    var out := Join(Words(raw));
    if out == [] then Failure(Empty)
    else if ByteLength(out) > limit then Failure(TooLong)
    else if exists i :: 0 <= i < |out| && IsControl(out[i]) then Failure(HasControl)
    else if exists i :: 0 <= i < |out| && IsInvisible(out[i]) then Failure(HasInvisible)
    else Success(out)
  }

  // ---- splitting and joining ----

  /** A word has characters, none of them whitespace. */
  predicate IsWord(w: Text) {
    w != [] && forall i :: 0 <= i < |w| ==> !IsWhitespace(w[i])
  }

  predicate AreWords(words: seq<Text>) {
    forall k :: 0 <= k < |words| ==> IsWord(words[k])
  }

  predicate NoSpace(t: Text) {
    forall i :: 0 <= i < |t| ==> !IsWhitespace(t[i])
  }

  lemma {:induction false} SplitPieces(t: Text)
    ensures forall k :: 0 <= k < |Split(t)| ==> NoSpace(Split(t)[k])
  {
    if t != [] {
      SplitPieces(t[..|t| - 1]);
    }
  }

  lemma {:induction false} NonEmptyKeepsWords(pieces: seq<Text>)
    requires forall k :: 0 <= k < |pieces| ==> NoSpace(pieces[k])
    ensures AreWords(NonEmpty(pieces))
  {
    if pieces != [] {
      NonEmptyKeepsWords(pieces[..|pieces| - 1]);
    }
  }

  lemma WordsAreWords(t: Text)
    ensures AreWords(Words(t))
  {
    SplitPieces(t);
    NonEmptyKeepsWords(Split(t));
  }

  lemma {:induction false} SplitAppendWord(t: Text, w: Text)
    requires NoSpace(w)
    ensures var before := Split(t); Split(t + w) == before[..|before| - 1] + [before[|before| - 1] + w]
  {
    var before := Split(t);
    if w == [] {
      assert t + w == t && before[|before| - 1] + w == before[|before| - 1];
    } else {
      var n := |w| - 1;
      SplitAppendWord(t, w[..n]);
      assert (t + w)[..|t + w| - 1] == t + w[..n];
      assert before[|before| - 1] + w[..n] + [w[n]] == before[|before| - 1] + w;
    }
  }

  lemma SplitAppendSpace(t: Text)
    ensures Split(t + [SPACE]) == Split(t) + [[]]
  {
    assert (t + [SPACE])[..|t|] == t;
  }

  lemma {:induction false} NonEmptyJoins(a: seq<Text>, b: seq<Text>)
    ensures NonEmpty(a + b) == NonEmpty(a) + NonEmpty(b)
  {
    if b == [] {
      assert a + b == a;
    } else {
      assert (a + b)[..|a + b| - 1] == a + b[..|b| - 1];
      NonEmptyJoins(a, b[..|b| - 1]);
    }
  }

  lemma NonEmptyOne(w: Text)
    ensures NonEmpty([w]) == if w == [] then [] else [w]
  {
    assert [w][..0] == [];
  }

  lemma SplitAppend(t: Text, w: Text)
    requires NoSpace(w)
    ensures Split(t + [SPACE] + w) == Split(t) + [w]
  {
    SplitAppendSpace(t);
    SplitAppendWord(t + [SPACE], w);
    assert [] + w == w;
  }

  lemma JoinMore(words: seq<Text>)
    requires |words| > 1
    ensures Join(words) == Join(words[..|words| - 1]) + [SPACE] + words[|words| - 1]
  {
  }

  /** Splitting what was joined gives the words back. */
  lemma {:induction false} SplitUndoesJoin(words: seq<Text>)
    requires AreWords(words)
    ensures Words(Join(words)) == words
  {
    if words == [] {
      NonEmptyOne([]);
    } else if |words| == 1 {
      SplitAppendWord([], words[0]);
      assert [] + words[0] == words[0] && Split(words[0]) == [words[0]];
      NonEmptyOne(words[0]);
    } else {
      var n := |words| - 1;
      var t := Join(words[..n]);
      SplitUndoesJoin(words[..n]);
      SplitAppend(t, words[n]);
      hide Split, Join, NonEmpty;
      NonEmptyJoins(Split(t), [words[n]]);
      NonEmptyOne(words[n]);
      assert words == words[..n] + [words[n]];
      JoinMore(words);
    }
  }

  // ---- the canonical form ----

  /** Two accepted names are displayed alike exactly when they consist of the same words. */
  lemma DisplayIsCanonical(a: Text, b: Text, limit: nat)
    requires Display(a, limit).Success? && Display(b, limit).Success?
    ensures Display(a, limit) == Display(b, limit) <==> Words(a) == Words(b)
  {
    hide Words, Join, ByteLength, IsControl, IsInvisible, AreWords;
    WordsAreWords(a);
    WordsAreWords(b);
    SplitUndoesJoin(Words(a));
    SplitUndoesJoin(Words(b));
  }

  /** A displayed name is its own display form. */
  lemma DisplayIsIdempotent(raw: Text, limit: nat)
    requires Display(raw, limit).Success?
    ensures Display(Display(raw, limit).value, limit) == Display(raw, limit)
  {
    WordsAreWords(raw);
    SplitUndoesJoin(Words(raw));
  }

  /** Whitespace appears only as a space with a visible character on either side. */
  predicate SinglySpaced(t: Text) {
    forall i :: 0 <= i < |t| && IsWhitespace(t[i]) ==>
      t[i] == SPACE && 0 < i < |t| - 1 && !IsWhitespace(t[i - 1]) && !IsWhitespace(t[i + 1])
  }

  lemma {:induction false} JoinIsSpaced(words: seq<Text>)
    requires AreWords(words) && words != []
    ensures SinglySpaced(Join(words)) && Join(words) != []
    ensures !IsWhitespace(Join(words)[0]) && !IsWhitespace(Join(words)[|Join(words)| - 1])
  {
    if |words| > 1 {
      var n := |words| - 1;
      JoinIsSpaced(words[..n]);
      var t, w := Join(words[..n]), words[n];
      var joined := t + [SPACE] + w;
      forall i | |t| < i < |joined| ensures !IsWhitespace(joined[i]) {
        assert joined[i] == w[i - |t| - 1];
      }
      forall i | 0 <= i < |joined| && IsWhitespace(joined[i])
        ensures joined[i] == SPACE && 0 < i < |joined| - 1 && !IsWhitespace(joined[i - 1])
          && !IsWhitespace(joined[i + 1])
      {
        if i < |t| {
          assert joined[i] == t[i] && joined[i - 1] == t[i - 1] && joined[i + 1] == t[i + 1];
        } else {
          assert joined[|t| - 1] == t[|t| - 1] && joined[|t| + 1] == w[0];
        }
      }
    }
  }

  lemma DisplayIsSpaced(raw: Text, limit: nat)
    requires Display(raw, limit).Success?
    ensures var d := Display(raw, limit).value;
      && d != [] && SinglySpaced(d) && ByteLength(d) <= limit
      && forall i :: 0 <= i < |d| ==> !IsControl(d[i]) && !IsInvisible(d[i])
  {
    WordsAreWords(raw);
    JoinIsSpaced(Words(raw));
  }

  // ---- which names are accepted ----

  /** Character `c` occurs in one of the pieces. */
  ghost predicate Occurs(pieces: seq<Text>, c: CodePoint) {
    exists k :: 0 <= k < |pieces| && c in pieces[k]
  }

  lemma {:induction false} SplitKeepsCharacters(t: Text, c: CodePoint)
    requires !IsWhitespace(c)
    ensures Occurs(Split(t), c) <==> c in t
  {
    if t != [] {
      var n := |t| - 1;
      var before := Split(t[..n]);
      SplitKeepsCharacters(t[..n], c);
      assert t == t[..n] + [t[n]];
      OccursAppend(before, [], c);
      OccursLast(before[..|before| - 1], before[|before| - 1], t[n], c);
      assert before == before[..|before| - 1] + [before[|before| - 1]];
    }
  }

  lemma OccursAppend(pieces: seq<Text>, w: Text, c: CodePoint)
    ensures Occurs(pieces + [w], c) <==> Occurs(pieces, c) || c in w
  {
    if Occurs(pieces, c) {
      var k :| 0 <= k < |pieces| && c in pieces[k];
      assert c in (pieces + [w])[k];
    }
    if c in w {
      assert c in (pieces + [w])[|pieces|];
    }
  }

  lemma OccursLast(pieces: seq<Text>, w: Text, x: CodePoint, c: CodePoint)
    ensures Occurs(pieces + [w + [x]], c) <==> Occurs(pieces + [w], c) || c == x
  {
    OccursAppend(pieces, w + [x], c);
    OccursAppend(pieces, w, c);
  }

  lemma {:induction false} NonEmptyKeepsCharacters(pieces: seq<Text>, c: CodePoint)
    ensures Occurs(NonEmpty(pieces), c) <==> Occurs(pieces, c)
  {
    if pieces != [] {
      var n := |pieces| - 1;
      NonEmptyKeepsCharacters(pieces[..n], c);
      OccursAppend(pieces[..n], pieces[n], c);
      OccursAppend(NonEmpty(pieces[..n]), pieces[n], c);
      assert pieces == pieces[..n] + [pieces[n]];
      assert NonEmpty(pieces[..n]) + [] == NonEmpty(pieces[..n]);
    }
  }

  lemma {:induction false} JoinKeepsCharacters(words: seq<Text>, c: CodePoint)
    requires !IsWhitespace(c)
    ensures c in Join(words) <==> Occurs(words, c)
  {
    if |words| == 1 {
      assert Occurs(words, c) <==> c in words[0];
    } else if |words| > 1 {
      var n := |words| - 1;
      JoinKeepsCharacters(words[..n], c);
      OccursAppend(words[..n], words[n], c);
      assert words == words[..n] + [words[n]];
    }
  }

  /** The visible characters of a name are those of its display form. */
  lemma SameCharacters(raw: Text, c: CodePoint)
    requires !IsWhitespace(c)
    ensures c in Join(Words(raw)) <==> c in raw
  {
    SplitKeepsCharacters(raw, c);
    NonEmptyKeepsCharacters(Split(raw), c);
    JoinKeepsCharacters(Words(raw), c);
  }

  /** A name is accepted exactly when it has a word, fits, and has no control or invisible character other
      than whitespace. */
  lemma AcceptedExactly(raw: Text, limit: nat)
    ensures Display(raw, limit).Success? <==>
            && (exists c :: c in raw && !IsWhitespace(c))
            && ByteLength(Join(Words(raw))) <= limit
            && (forall c :: c in raw && !IsWhitespace(c) ==> !IsControl(c) && !IsInvisible(c))
  {
    var out := Join(Words(raw));
    forall c | !IsWhitespace(c) ensures c in out <==> c in raw {
      SameCharacters(raw, c);
    }
    WordsAreWords(raw);
    if Words(raw) != [] {
      JoinIsSpaced(Words(raw));
      assert out[0] in out;
    }
    assert forall i :: 0 <= i < |out| ==> out[i] in out;
    assert !IsControl(SPACE) && !IsInvisible(SPACE);
    hide Words, Join;
    if Display(raw, limit).Success? {
      forall c | c in raw && !IsWhitespace(c) ensures !IsControl(c) && !IsInvisible(c) {
        var i :| 0 <= i < |out| && out[i] == c;
      }
    }
  }

  // ---- the hash ----

  function LowerAscii(c: CodePoint): CodePoint {
    if 0x41 <= c <= 0x5a then c + 0x20 else c
  }

  function Lower(t: Text): Text {
    seq(|t|, i requires 0 <= i < |t| => LowerAscii(t[i]))
  }

  /** `digest` stands for SHA-256 over the UTF-8 bytes. */
  function NameHash<H>(display: Text, digest: Text -> H): H {
    digest(Lower(display))
  }

  function LowerAll(words: seq<Text>): seq<Text> {
    seq(|words|, k requires 0 <= k < |words| => Lower(words[k]))
  }

  lemma {:induction false} LowerJoin(words: seq<Text>)
    ensures Lower(Join(words)) == Join(LowerAll(words))
  {
    if |words| > 1 {
      var n := |words| - 1;
      LowerJoin(words[..n]);
      assert LowerAll(words)[..n] == LowerAll(words[..n]);
      assert Lower(Join(words[..n]) + [SPACE] + words[n]) == Lower(Join(words[..n])) + [SPACE] + Lower(words[n]);
    }
  }

  lemma LowerWords(words: seq<Text>)
    requires AreWords(words)
    ensures AreWords(LowerAll(words))
  {
    forall k | 0 <= k < |words| ensures IsWord(LowerAll(words)[k]) {
      assert IsWord(words[k]);
    }
  }

  /** With a digest that does not collide, two names stand for the same company exactly when they have the
      same words up to the case of ASCII letters. */
  lemma SameCompanyExactly<H(!new)>(a: Text, b: Text, digest: Text -> H)
    requires forall x, y :: digest(x) == digest(y) ==> x == y
    ensures NameHash(Join(Words(a)), digest) == NameHash(Join(Words(b)), digest) <==>
      LowerAll(Words(a)) == LowerAll(Words(b))
  {
    WordsAreWords(a);
    WordsAreWords(b);
    LowerJoin(Words(a));
    LowerJoin(Words(b));
    LowerWords(Words(a));
    LowerWords(Words(b));
    SplitUndoesJoin(LowerAll(Words(a)));
    SplitUndoesJoin(LowerAll(Words(b)));
  }
}
