/**
 The content of one card and the generation of the full 81-entry content
 list: the Cartesian product shape × count × color × pattern, built by four
 nested loops with the shape outermost and the pattern innermost.
 */
module Contents {
  import opened Seqs
  import opened Attributes

  /** The attribute tuple `(shape, color, pattern, number)` a card carries. */
  datatype Content = Content(shape: CardShape, color: CardColor, pattern: CardPattern, count: ShapeCount)

  /** Number of entries the generator produces: one per attribute combination. */
  const DeckSize: nat := 81

  /** The leading base-3 digit of `k` when a unit of that digit is worth `w`. */
  function Digit(k: nat, w: nat): (d: nat)
    requires 0 < w && k < 3 * w
    ensures d < 3 && d * w <= k < d * w + w
  {
    if k < w then 0 else if k < 2 * w then 1 else 2
  }

  /** Reference definition of the entry at position `k`: `k` read as a
      four-digit base-3 numeral whose digits, most significant first, select
      the shape, the count, the colour and the pattern. */
  function ContentAt(k: nat): Content
    requires k < DeckSize
  {
    var s := Digit(k, 27);
    var n := Digit(k - 27 * s, 9);
    var c := Digit(k - 27 * s - 9 * n, 3);
    var p := k - 27 * s - 9 * n - 3 * c;
    Content(AllShapes[s], AllColors[c], AllPatterns[p], AllCounts[n])
  }

  /** The position of a content in the generated list, from the loop nesting
      order: 27 per shape, 9 per count, 3 per colour, 1 per pattern. */
  function Index(x: Content): (k: nat)
    ensures k < DeckSize
  {
    27 * ShapeIndex(x.shape) + 9 * CountIndex(x.count) + 3 * ColorIndex(x.color) + PatternIndex(x.pattern)
  }

  /** The digit decomposition behind `ContentAt`: the entry at position
      27·s + 9·n + 3·c + p is (shape s, colour c, pattern p, count n). */
  lemma ContentAtDigits(s: nat, n: nat, c: nat, p: nat)
    requires s < 3 && n < 3 && c < 3 && p < 3
    ensures 27 * s + 9 * n + 3 * c + p < DeckSize
    ensures ContentAt(27 * s + 9 * n + 3 * c + p) == Content(AllShapes[s], AllColors[c], AllPatterns[p], AllCounts[n])
  {
    var k := 27 * s + 9 * n + 3 * c + p;
    assert Digit(k, 27) == s;
    assert Digit(k - 27 * s, 9) == n;
    assert Digit(k - 27 * s - 9 * n, 3) == c;
  }

  /** Reading back the position of the entry at `k` gives `k`. */
  lemma IndexOfContentAt(k: nat)
    requires k < DeckSize
    ensures Index(ContentAt(k)) == k
  {
    var s := Digit(k, 27);
    var n := Digit(k - 27 * s, 9);
    var c := Digit(k - 27 * s - 9 * n, 3);
    var p := k - 27 * s - 9 * n - 3 * c;
    assert ShapeIndex(AllShapes[s]) == s;
    assert CountIndex(AllCounts[n]) == n;
    assert ColorIndex(AllColors[c]) == c;
    assert PatternIndex(AllPatterns[p]) == p;
  }

  /** The entry at a content's position is that content. */
  lemma ContentAtIndex(x: Content)
    ensures ContentAt(Index(x)) == x
  {
    ContentAtDigits(ShapeIndex(x.shape), CountIndex(x.count), ColorIndex(x.color), PatternIndex(x.pattern));
  }

  /** The first `|s|` entries of the generated list. */
  ghost predicate GeneratedPrefix(s: seq<Content>) {
    |s| <= DeckSize && forall k :: 0 <= k < |s| ==> s[k] == ContentAt(k)
  }

  /** Appending the entry for the next position extends a generated prefix. */
  lemma ExtendPrefix(s: seq<Content>, x: Content)
    requires GeneratedPrefix(s) && |s| < DeckSize && x == ContentAt(|s|)
    ensures GeneratedPrefix(s + [x])
  {
    forall k | 0 <= k < |s| + 1 ensures (s + [x])[k] == ContentAt(k) {
      if k < |s| {
        assert (s + [x])[k] == s[k];
      }
    }
  }

  /** A full generated list holds every combination at its `Index` position
      and holds no combination twice. */
  lemma CompleteAndDistinct(s: seq<Content>)
    requires GeneratedPrefix(s) && |s| == DeckSize
    ensures forall x: Content :: s[Index(x)] == x
    ensures Distinct(s)
  {
    forall x: Content ensures s[Index(x)] == x {
      ContentAtIndex(x);
    }
    forall i, j | 0 <= i < j < |s| ensures s[i] != s[j] {
      IndexOfContentAt(i);
      IndexOfContentAt(j);
    }
  }

  /** Builds the 81 contents with four nested loops over the attribute cases:
      shape outermost, then count, then colour, then pattern. The result has
      exactly 81 entries, no entry twice, and every combination at the
      position `Index` gives it. */
  method CreateCardContent() returns (contents: seq<Content>)
    ensures |contents| == DeckSize
    ensures forall k :: 0 <= k < |contents| ==> contents[k] == ContentAt(k)
    ensures forall x: Content :: contents[Index(x)] == x
    ensures Distinct(contents)
  {
    contents := [];
    for si := 0 to 3
      invariant |contents| == 27 * si
      invariant GeneratedPrefix(contents)
    {
      for ni := 0 to 3
        invariant |contents| == 27 * si + 9 * ni
        invariant GeneratedPrefix(contents)
      {
        for ci := 0 to 3
          invariant |contents| == 27 * si + 9 * ni + 3 * ci
          invariant GeneratedPrefix(contents)
        {
          for pi := 0 to 3
            invariant |contents| == 27 * si + 9 * ni + 3 * ci + pi
            invariant GeneratedPrefix(contents)
          {
            var x := Content(AllShapes[si], AllColors[ci], AllPatterns[pi], AllCounts[ni]);
            ContentAtDigits(si, ni, ci, pi);
            ExtendPrefix(contents, x);
            contents := contents + [x];
          }
        }
      }
    }
    CompleteAndDistinct(contents);
  }
}
