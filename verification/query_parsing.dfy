/**
 * A reader for the query strings the encoder writes: split on `&`, skip
 * empty pieces, split each piece at its first `=` and percent-decode both
 * halves. It is the inverse the round-trip lemmas of the query encoder are
 * stated against; it reads flat `key=value` pairs only, with no bracket or
 * comma interpretation.
 */
module QueryParsing {
  import opened Wrappers
  import opened Text
  import opened PercentEncoding

  /** `s.split(c)` for a one-character separator: always at least one piece. */
  function Split(s: string, c: char): (r: seq<string>)
    ensures |r| >= 1
    decreases |s|
  {
    match IndexOf(s, c)
    case None => [s]
    case Some(i) => [s[..i]] + Split(s[i + 1..], c)
  }

  /** The first separator ends the first piece. */
  lemma SplitFirst(p: string, c: char, r: string)
    requires c !in p
    ensures Split(p + [c] + r, c) == [p] + Split(r, c)
  {
    var s := p + [c] + r;
    IndexOfSplit(p, c, r);
    assert s[..|p|] == p && s[|p| + 1..] == r;
  }

  /** Splitting at a separator splits the two sides independently. */
  lemma {:induction false} SplitAround(a: string, c: char, b: string)
    ensures Split(a + [c] + b, c) == Split(a, c) + Split(b, c)
    decreases |a|
  {
    match IndexOf(a, c)
    case None =>
      SplitFirst(a, c, b);
    case Some(i) =>
      var p, q := a[..i], a[i + 1..];
      assert a == p + [c] + q;
      assert a + [c] + b == p + [c] + (q + [c] + b);
      SplitAround(q, c, b);
      SplitAroundLater(p, q, q + [c] + b, c, b);
  }

  /** The step of SplitAround where `a` holds a separator of its own. */
  lemma SplitAroundLater(p: string, q: string, r: string, c: char, b: string)
    requires c !in p
    requires Split(r, c) == Split(q, c) + Split(b, c)
    ensures Split(p + [c] + r, c) == Split(p + [c] + q, c) + Split(b, c)
  {
    SplitFirst(p, c, r);
    SplitFirst(p, c, q);
  }

  /** `parts.join(c).split(c)` gives back `parts` when no part holds `c`. */
  lemma {:induction false} SplitJoin(parts: seq<string>, c: char)
    requires |parts| > 0
    requires forall i :: 0 <= i < |parts| ==> c !in parts[i]
    ensures Split(Join(parts, [c]), c) == parts
  {
    if |parts| > 1 {
      SplitAround(parts[0], c, Join(parts[1..], [c]));
      SplitJoin(parts[1..], c);
    }
  }

  /** The pieces that are not empty, in order. */
  function NonEmpty(pieces: seq<string>): (r: seq<string>)
    ensures forall i :: 0 <= i < |r| ==> r[i] != ""
  {
    if |pieces| == 0 then []
    else (if pieces[0] == "" then [] else [pieces[0]]) + NonEmpty(pieces[1..])
  }

  lemma {:induction false} NonEmptyAppend(a: seq<string>, b: seq<string>)
    ensures NonEmpty(a + b) == NonEmpty(a) + NonEmpty(b)
  {
    if |a| > 0 {
      assert (a + b)[1..] == a[1..] + b;
      NonEmptyAppend(a[1..], b);
    } else {
      assert a + b == b;
    }
  }

  lemma {:induction false} NonEmptyKeeps(pieces: seq<string>)
    requires forall i :: 0 <= i < |pieces| ==> pieces[i] != ""
    ensures NonEmpty(pieces) == pieces
  {
    if |pieces| > 0 {
      NonEmptyKeeps(pieces[1..]);
    }
  }

  /** One `key=value` piece, split at its first `=`; a piece without `=` is a key with an empty value. */
  function DecodePair(piece: string): (seq<Byte>, seq<Byte>)
  {
    match IndexOf(piece, '=')
    case None => (Decode(piece), [])
    case Some(i) => (Decode(piece[..i]), Decode(piece[i + 1..]))
  }

  lemma DecodePairAt(k: string, v: string)
    requires '=' !in k
    ensures DecodePair(k + "=" + v) == (Decode(k), Decode(v))
  {
    var piece := k + "=" + v;
    IndexOfSplit(k, '=', v);
    assert piece[..|k|] == k && piece[|k| + 1..] == v;
  }

  function DecodePairs(pieces: seq<string>): (r: seq<(seq<Byte>, seq<Byte>)>)
    ensures |r| == |pieces|
    ensures forall i :: 0 <= i < |pieces| ==> r[i] == DecodePair(pieces[i])
  {
    if |pieces| == 0 then [] else [DecodePair(pieces[0])] + DecodePairs(pieces[1..])
  }

  /** The decoded (key, value) pairs of a query string, in order. */
  function ParseQuery(s: string): seq<(seq<Byte>, seq<Byte>)>
  {
    DecodePairs(NonEmpty(Split(s, '&')))
  }

  lemma DecodePairsAppend(a: seq<string>, b: seq<string>)
    ensures DecodePairs(a + b) == DecodePairs(a) + DecodePairs(b)
  {
    assert forall i :: 0 <= i < |a + b| ==> DecodePairs(a + b)[i] == (DecodePairs(a) + DecodePairs(b))[i];
  }

  /** Text on either side of an `&` reads back independently. */
  lemma ParseAround(a: string, b: string)
    ensures ParseQuery(a + "&" + b) == ParseQuery(a) + ParseQuery(b)
  {
    SplitAround(a, '&', b);
    NonEmptyAppend(Split(a, '&'), Split(b, '&'));
    DecodePairsAppend(NonEmpty(Split(a, '&')), NonEmpty(Split(b, '&')));
  }

  /** Non-empty pieces without `&`, joined with `&`, read back piece by piece. */
  lemma ParseJoin(pieces: seq<string>)
    requires forall i :: 0 <= i < |pieces| ==> pieces[i] != "" && '&' !in pieces[i]
    ensures ParseQuery(Join(pieces, "&")) == DecodePairs(pieces)
  {
    if |pieces| == 0 {
      assert Split("", '&') == [""];
    } else {
      SplitJoin(pieces, '&');
      NonEmptyKeeps(pieces);
    }
  }
}
