/** String operations of JavaScript that the model relies on: `String.prototype.trim`,
    and facts about substrings of a text assembled from pieces (a template literal). */
module JsText {

  /** The code points ECMAScript counts as WhiteSpace or LineTerminator,
      which is exactly what `trim()` removes from both ends of a string. */
  predicate IsJsWhitespace(c: char) {
    c == '\t' || c == '\U{000B}' || c == '\U{000C}' || c == ' ' || c == '\U{00A0}'
    || c == '\U{FEFF}' || c == '\U{1680}' || ('\U{2000}' <= c <= '\U{200A}')
    || c == '\U{202F}' || c == '\U{205F}' || c == '\U{3000}'
    || c == '\n' || c == '\r' || c == '\U{2028}' || c == '\U{2029}'
  }

  predicate AllWhitespace(s: string) {
    forall i :: 0 <= i < |s| ==> IsJsWhitespace(s[i])
  }

  /** The leading whitespace of `s` removed: `r` is a suffix of `s`, what was dropped is
      whitespace, and `r` does not itself begin with whitespace. */
  function TrimStart(s: string): (r: string)
    ensures |r| <= |s| && r == s[|s| - |r|..]
    ensures AllWhitespace(s[..|s| - |r|])
    ensures r == [] || !IsJsWhitespace(r[0])
  {
    if |s| > 0 && IsJsWhitespace(s[0]) then
      var r := TrimStart(s[1..]);
      assert s[..|s| - |r|] == [s[0]] + s[1..][..|s| - 1 - |r|];
      r
    else s
  }

  /** The trailing whitespace of `s` removed: `r` is a prefix of `s`, what was dropped is
      whitespace, and `r` does not itself end with whitespace. */
  function TrimEnd(s: string): (r: string)
    ensures |r| <= |s| && r == s[..|r|]
    ensures AllWhitespace(s[|r|..])
    ensures r == [] || !IsJsWhitespace(r[|r| - 1])
  {
    if |s| > 0 && IsJsWhitespace(s[|s| - 1]) then
      var r := TrimEnd(s[..|s| - 1]);
      assert s[|r|..] == s[..|s| - 1][|r|..] + [s[|s| - 1]];
      r
    else s
  }

  /** `s.trim()`. */
  function Trim(s: string): (r: string)
    ensures |r| <= |s|
    ensures r == [] <==> AllWhitespace(s)
    ensures r == [] || (!IsJsWhitespace(r[0]) && !IsJsWhitespace(r[|r| - 1]))
  {
    var front := TrimStart(s);
    var r := TrimEnd(front);
    assert r == [] ==> AllWhitespace(s) by {
      if r == [] {
        forall i | 0 <= i < |s| ensures IsJsWhitespace(s[i]) {
          if i < |s| - |front| {
            assert s[i] == s[..|s| - |front|][i];
          }
        }
      }
    }
    r
  }

  lemma {:induction false} TrimStartDropsWhitespacePrefix(ws: string, body: string)
    requires AllWhitespace(ws)
    requires body == [] || !IsJsWhitespace(body[0])
    ensures TrimStart(ws + body) == body
  {
    if ws != [] {
      assert (ws + body)[1..] == ws[1..] + body;
      TrimStartDropsWhitespacePrefix(ws[1..], body);
    } else {
      assert ws + body == body;
    }
  }

  lemma {:induction false} TrimEndDropsWhitespaceSuffix(body: string, ws: string)
    requires AllWhitespace(ws)
    requires body == [] || !IsJsWhitespace(body[|body| - 1])
    ensures TrimEnd(body + ws) == body
  {
    if ws != [] {
      var n := |body + ws|;
      assert (body + ws)[n - 1] == ws[|ws| - 1];
      assert (body + ws)[..n - 1] == body + ws[..|ws| - 1];
      TrimEndDropsWhitespaceSuffix(body, ws[..|ws| - 1]);
    } else {
      assert body + ws == body;
    }
  }

  /** `trim()` is characterised by its input: whatever whitespace surrounds a text that
      neither begins nor ends with whitespace, trimming gives back exactly that text. */
  lemma {:induction false} TrimSurrounded(lead: string, body: string, trail: string)
    requires AllWhitespace(lead) && AllWhitespace(trail)
    requires body == [] || (!IsJsWhitespace(body[0]) && !IsJsWhitespace(body[|body| - 1]))
    ensures Trim(lead + body + trail) == body
  {
    assert lead + body + trail == lead + (body + trail);
    if body == [] {
      assert AllWhitespace(lead + body + trail) by {
        forall i | 0 <= i < |lead + body + trail|
          ensures IsJsWhitespace((lead + body + trail)[i])
        {
          if i >= |lead| { assert (lead + body + trail)[i] == trail[i - |lead|]; }
        }
      }
    } else {
      assert (body + trail)[0] == body[0];
      TrimStartDropsWhitespacePrefix(lead, body + trail);
      TrimEndDropsWhitespaceSuffix(body, trail);
    }
  }

  /** `needle` occurs in `hay` starting at index `at`. */
  predicate OccursAt(needle: string, hay: string, at: int) {
    0 <= at && at + |needle| <= |hay| && hay[at..at + |needle|] == needle
  }

  /** Two texts occurring one right after the other form an occurrence of their join. */
  lemma {:induction false} AdjacentOccur(a: string, b: string, hay: string, at: int)
    requires OccursAt(a, hay, at) && OccursAt(b, hay, at + |a|)
    ensures OccursAt(a + b, hay, at)
  {
    assert hay[at..at + |a| + |b|] == hay[at..at + |a|] + hay[at + |a|..at + |a| + |b|];
  }

  /** `needle` occurs in `hay` starting at some index in `[lo, hi - |needle|]`. */
  predicate OccursWithin(needle: string, hay: string, lo: int, hi: int) {
    exists q :: lo <= q && q + |needle| <= hi && OccursAt(needle, hay, q)
  }

  predicate StartsWith(s: string, prefix: string) {
    |prefix| <= |s| && s[..|prefix|] == prefix
  }

  /** Two prefixes that differ at some index cannot both begin the same text. */
  lemma {:induction false} StartsWithExclusive(s: string, a: string, b: string, k: nat)
    requires StartsWith(s, a) && k < |a| && k < |b| && a[k] != b[k]
    ensures !StartsWith(s, b)
  {
    assert s[k] == a[k];
  }

  predicate EndsWith(s: string, suffix: string) {
    |suffix| <= |s| && s[|s| - |suffix|..] == suffix
  }

  /** The pieces of a template literal joined in order. */
  function Concat(pieces: seq<string>): (r: string)
    ensures pieces == [] ==> r == []
  {
    if pieces == [] then [] else pieces[0] + Concat(pieces[1..])
  }

  lemma {:induction false} ConcatSplit(pieces: seq<string>, k: nat)
    requires k <= |pieces|
    ensures Concat(pieces) == Concat(pieces[..k]) + Concat(pieces[k..])
  {
    if k > 0 {
      ConcatSplit(pieces[1..], k - 1);
      assert pieces[1..][..k - 1] == pieces[..k][1..];
      assert pieces[1..][k - 1..] == pieces[k..];
    } else {
      assert pieces[k..] == pieces;
    }
  }

  /** Index at which piece `k` begins in `Concat(pieces)`. */
  function Offset(pieces: seq<string>, k: nat): nat
    requires k <= |pieces|
  {
    |Concat(pieces[..k])|
  }

  lemma {:induction false} ConcatLast(pieces: seq<string>)
    requires |pieces| > 0
    ensures Concat(pieces) == Concat(pieces[..|pieces| - 1]) + pieces[|pieces| - 1]
  {
    var n := |pieces|;
    ConcatSplit(pieces, n - 1);
    assert pieces[n - 1..] == [pieces[n - 1]];
    ConcatSingle(pieces[n - 1]);
  }

  /** Piece `k` occurs in the joined text where it begins, and the next piece begins
      right after it. */
  lemma {:induction false} PieceAt(pieces: seq<string>, k: nat)
    requires k < |pieces|
    ensures OccursAt(pieces[k], Concat(pieces), Offset(pieces, k))
    ensures Offset(pieces, k + 1) == Offset(pieces, k) + |pieces[k]|
  {
    var front := pieces[..k + 1];
    ConcatLast(front);
    assert front[..k] == pieces[..k];
    ConcatSplit(pieces, k + 1);
    var a, b, c := Concat(pieces[..k]), pieces[k], Concat(pieces[k + 1..]);
    assert Concat(pieces) == a + b + c;
    assert (a + b + c)[|a|..|a| + |b|] == b;
  }

  /** Two consecutive pieces occur, joined, where the first begins. */
  lemma {:induction false} PairAt(pieces: seq<string>, k: nat)
    requires k + 1 < |pieces|
    ensures OccursAt(pieces[k] + pieces[k + 1], Concat(pieces), Offset(pieces, k))
  {
    var hay, at := Concat(pieces), Offset(pieces, k);
    PieceAt(pieces, k);
    PieceAt(pieces, k + 1);
    assert OccursAt(pieces[k + 1], hay, at + |pieces[k]|);
    AdjacentOccur(pieces[k], pieces[k + 1], hay, at);
  }

  /** Later pieces begin no earlier. */
  lemma {:induction false} OffsetGrows(pieces: seq<string>, k: nat, m: nat)
    requires k <= m <= |pieces|
    ensures Offset(pieces, k) <= Offset(pieces, m)
  {
    ConcatSplit(pieces[..m], k);
    assert pieces[..m][..k] == pieces[..k];
  }

  /** A piece ends no later than a later piece begins. */
  lemma {:induction false} PieceBefore(pieces: seq<string>, k: nat, m: nat)
    requires k < m <= |pieces|
    ensures Offset(pieces, k) + |pieces[k]| <= Offset(pieces, m)
  {
    PieceAt(pieces, k);
    OffsetGrows(pieces, k + 1, m);
  }

  /** Two consecutive pieces from `k` occur, joined, between where piece `lo` begins
      and where piece `hi` begins. */
  lemma {:induction false} PairWithin(pieces: seq<string>, k: nat, lo: nat, hi: nat)
    requires lo <= k && k + 2 <= hi <= |pieces|
    ensures OccursWithin(pieces[k] + pieces[k + 1], Concat(pieces), Offset(pieces, lo), Offset(pieces, hi))
  {
    PairAt(pieces, k);
    PieceAt(pieces, k);
    PieceAt(pieces, k + 1);
    OffsetGrows(pieces, lo, k);
    OffsetGrows(pieces, k + 2, hi);
    assert OccursAt(pieces[k] + pieces[k + 1], Concat(pieces), Offset(pieces, k));
  }

  /** The joined text ends with the joined run of its last pieces. */
  lemma {:induction false} PiecesEnd(pieces: seq<string>, k: nat)
    requires k <= |pieces|
    ensures EndsWith(Concat(pieces), Concat(pieces[k..]))
  {
    ConcatSplit(pieces, k);
  }

  lemma PiecesStart(pieces: seq<string>)
    requires |pieces| > 0
    ensures StartsWith(Concat(pieces), pieces[0])
  {
  }

  lemma ConcatPair(x: string, y: string)
    ensures Concat([x, y]) == x + y
  {
    assert [x, y][1..] == [y];
    assert [y][1..] == [];
  }

  lemma ConcatSingle(x: string)
    ensures Concat([x]) == x
  {
    assert [x][1..] == [];
  }
}
