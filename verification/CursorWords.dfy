/** The grid cursor's words read as sets: which items are marked, and which
    words of marks hold one. */
module CursorWords {
  import opened Words
  import opened GridLayout

  /** Bit k of w says whether base + k is in s. */
  ghost predicate WordIs(w: bv64, s: set<nat>, base: nat) {
    forall k: nat :: k < WORD_BITS ==> (Bit(w, k) <==> base + k in s)
  }

  ghost predicate NoneIn(s: set<nat>, lo: nat, hi: nat) {
    forall i :: i in s ==> i < lo || hi <= i
  }

  /** The words a set of items touches. */
  ghost function WordsOf(s: set<nat>): set<nat> { set i | i in s :: i / 64 }

  ghost function From(s: set<nat>, a: nat): set<nat> { set i | i in s && i >= a }

  lemma WordHas(w: bv64, s: set<nat>, base: nat, i: nat)
    requires WordIs(w, s, base) && base <= i < base + 64
    ensures Bit(w, i - base) <==> i in s
  {
    assert base + (i - base) == i;
  }

  lemma WordZero(w: bv64, s: set<nat>, base: nat)
    requires WordIs(w, s, base)
    ensures w == 0 <==> NoneIn(s, base, base + 64)
  {
    if w != 0 {
      LowestBit(w);
    } else {
      forall i | i in s
        ensures i < base || base + 64 <= i
      {
        if base <= i < base + 64 {
          WordHas(w, s, base, i);
          ZeroBits(i - base);
        }
      }
    }
  }

  lemma ZeroWord(s: set<nat>, base: nat)
    requires NoneIn(s, base, base + 64)
    ensures WordIs(0, s, base)
  {
    forall k: nat | k < WORD_BITS
      ensures Bit(0, k) <==> base + k in s
    {
      ZeroBits(k);
    }
  }

  /** The lowest bit of a word is its least member; dropping it leaves the rest. */
  lemma TakeLowest(w: bv64, s: set<nat>, base: nat) returns (i: nat)
    requires w != 0 && WordIs(w, s, base)
    ensures i == base + TrailingZeros(w) && TrailingZeros(w) < WORD_BITS && i in s
    ensures NoneIn(s, base, i)
    ensures WordIs(w & (w - 1), From(s, i + 1), base)
  {
    LowestBit(w);
    i := base + TrailingZeros(w);
    forall j | j in s
      ensures j < base || i <= j
    {
      if base <= j < i {
        WordHas(w, s, base, j);
      }
    }
    var w' := w & (w - 1);
    forall k: nat | k < WORD_BITS
      ensures Bit(w', k) <==> base + k in From(s, i + 1)
    {
      ClearLowest(w, k);
    }
  }

  lemma AddBit(w: bv64, b: bv64, s: set<nat>, base: nat, k: nat)
    requires WordIs(w, s, base) && k < WORD_BITS && IsOne(b, k)
    ensures WordIs(w | b, s + {base + k}, base)
  {
    SetBit(w, b, k);
    var w', s' := w | b, s + {base + k};
    forall j: nat | j < WORD_BITS
      ensures Bit(w', j) <==> base + j in s'
    {
      assert Bit(w, j) <==> base + j in s;
    }
  }

  /** w |= bit, where bit is item's own. */
  method OrItem(w: bv64, bit: bv64, ghost s: set<nat>, ghost item: nat) returns (v: bv64)
    requires WordIs(w, s, 64 * (item / 64)) && IsOne(bit, item % 64)
    ensures WordIs(v, s + {item}, 64 * (item / 64))
  {
    assert 64 * (item / 64) + item % 64 == item;
    AddBit(w, bit, s, 64 * (item / 64), item % 64);
    v := w | bit;
  }

  /** Takes the lowest bit off a word: TrailingZeros64, then w &= w - 1. */
  method PopLowest(w: bv64, base: nat, ghost s: set<nat>) returns (i: nat, v: bv64)
    requires w != 0 && WordIs(w, s, base)
    ensures base <= i < base + 64 && i in s && NoneIn(s, base, i)
    ensures WordIs(v, From(s, i + 1), base)
  {
    ghost var j := TakeLowest(w, s, base);
    i := base + TrailingZeros(w);
    v := w & (w - 1);
  }

  lemma SkipRest(s: set<nat>, base: nat, at: nat, i: nat)
    requires base <= at <= i && NoneIn(From(s, at), base, i)
    ensures Ascending(s, at) == Ascending(s, i)
  {
    forall j | at <= j < i
      ensures j !in s
    {
      assert j in s ==> j in From(s, at);
    }
    AscendingSkip(s, at, i);
  }

  lemma EmitNext(s: set<nat>, base: nat, at: nat, i: nat, out: seq<nat>)
    requires base <= at && base <= i && i in From(s, at) && NoneIn(From(s, at), base, i)
    ensures out + Ascending(s, i + 1) == out + Ascending(s, at) + [i]
    ensures From(From(s, at), i + 1) == From(s, i + 1)
  {
    SkipRest(s, base, at, i);
  }

  /** Appends the members of one word in ascending order. */
  method EmitWord(word: bv64, base: nat, dst: seq<nat>, ghost s: set<nat>, ghost out: seq<nat>) returns (r: seq<nat>)
    requires WordIs(word, s, base) && dst == out + Ascending(s, base)
    ensures r == out + Ascending(s, base + 64)
  {
    r := dst;
    var hits := word;
    ghost var at := base;
    while hits != 0
      invariant base <= at <= base + 64
      invariant WordIs(hits, From(s, at), base)
      invariant r == out + Ascending(s, at)
      decreases base + 64 - at
    {
      var i;
      i, hits := PopLowest(hits, base, From(s, at));
      EmitNext(s, base, at, i, out);
      r := r + [i];
      at := i + 1;
    }
    WordZero(hits, From(s, at), base);
    SkipRest(s, base, at, base + 64);
  }

  // ---- the marks ----

  /** The marks of items 64w..64w+63: tested, then answered. */
  ghost predicate PairIs(marks: seq<bv64>, w: nat, tested: set<nat>, answered: set<nat>)
    requires 2 * w + 1 < |marks|
  {
    WordIs(marks[2 * w], tested, 64 * w) && WordIs(marks[2 * w + 1], answered, 64 * w)
  }

  ghost predicate MarksAre(marks: seq<bv64>, tested: set<nat>, answered: set<nat>) {
    forall w: nat :: 2 * w + 1 < |marks| ==> PairIs(marks, w, tested, answered)
  }

  ghost predicate SummaryIs(touched: seq<bv64>, s: nat, words: set<nat>, lo: int, hi: int)
    requires s < |touched|
  {
    WordIs(touched[s], words, 64 * s) && (touched[s] != 0 ==> lo <= s <= hi)
  }

  ghost predicate TouchedAre(touched: seq<bv64>, words: set<nat>, lo: int, hi: int) {
    forall s: nat :: s < |touched| ==> SummaryIs(touched, s, words, lo, hi)
  }

  ghost predicate AllZero(words: seq<bv64>) {
    forall i :: 0 <= i < |words| ==> words[i] == 0
  }

  /** Marking an item changes only the two words it shares. */
  lemma MarkItem(marks: seq<bv64>, marks': seq<bv64>, item: nat, tested: set<nat>, answered: set<nat>, answered': set<nat>)
    requires MarksAre(marks, tested, answered)
    requires answered' == answered || answered' == answered + {item}
    requires 2 * (item / 64) + 1 < |marks| == |marks'|
    requires forall j :: 0 <= j < |marks| && j / 2 != item / 64 ==> marks'[j] == marks[j]
    requires PairIs(marks', item / 64, tested + {item}, answered')
    ensures MarksAre(marks', tested + {item}, answered')
  {
    forall w: nat | 2 * w + 1 < |marks|
      ensures PairIs(marks', w, tested + {item}, answered')
    {
      if w != item / 64 {
        assert PairIs(marks, w, tested, answered);
        assert marks'[2 * w] == marks[2 * w] && marks'[2 * w + 1] == marks[2 * w + 1];
      }
    }
  }

  /** Noting one more word changes only its own summary word. */
  lemma TouchWord(touched: seq<bv64>, touched': seq<bv64>, word: nat, words: set<nat>, lo: int, hi: int, lo': int, hi': int)
    requires TouchedAre(touched, words, lo, hi)
    requires lo' <= lo && hi <= hi' && lo' <= word / 64 <= hi'
    requires word / 64 < |touched| == |touched'|
    requires forall s :: 0 <= s < |touched| && s != word / 64 ==> touched'[s] == touched[s]
    requires WordIs(touched'[word / 64], words + {word}, 64 * (word / 64))
    ensures TouchedAre(touched', words + {word}, lo', hi')
  {
    forall s: nat | s < |touched|
      ensures SummaryIs(touched', s, words + {word}, lo', hi')
    {
      assert SummaryIs(touched, s, words, lo, hi);
    }
  }

  // ---- emitting ----

  /** The items of words below w have been emitted after out and cleared; the
      later ones stand. */
  ghost predicate Emitted(marks: seq<bv64>, r: seq<nat>, out: seq<nat>, tested: set<nat>, answered: set<nat>, w: nat) {
    && MarksAre(marks, From(tested, 64 * w), From(answered, 64 * w))
    && r == out + Ascending(answered, 64 * w)
  }

  /** Words no tested item touches need no visit. */
  lemma Advance(marks: seq<bv64>, r: seq<nat>, out: seq<nat>, tested: set<nat>, answered: set<nat>, w: nat, w': nat)
    requires Emitted(marks, r, out, tested, answered, w) && answered <= tested
    requires w <= w' && NoneIn(WordsOf(tested), w, w')
    ensures Emitted(marks, r, out, tested, answered, w')
  {
    forall i | i in tested
      ensures i < 64 * w || 64 * w' <= i
    {
      assert i / 64 in WordsOf(tested);
    }
    assert From(tested, 64 * w) == From(tested, 64 * w');
    assert From(answered, 64 * w) == From(answered, 64 * w');
    AscendingSkip(answered, 64 * w, 64 * w');
  }

  /** Clearing the two words of w leaves the later ones standing. */
  lemma PairCleared(marks: seq<bv64>, marks': seq<bv64>, w: nat, tested: set<nat>, answered: set<nat>)
    requires 2 * w + 1 < |marks| == |marks'|
    requires MarksAre(marks, From(tested, 64 * w), From(answered, 64 * w))
    requires marks' == marks[2 * w := 0][2 * w + 1 := 0]
    ensures MarksAre(marks', From(tested, 64 * (w + 1)), From(answered, 64 * (w + 1)))
  {
    forall v: nat | 2 * v + 1 < |marks'|
      ensures PairIs(marks', v, From(tested, 64 * (w + 1)), From(answered, 64 * (w + 1)))
    {
      assert PairIs(marks, v, From(tested, 64 * w), From(answered, 64 * w));
      if v <= w {
        WordZero(marks[2 * v], From(tested, 64 * w), 64 * v);
        WordZero(marks[2 * v + 1], From(answered, 64 * w), 64 * v);
        ZeroWord(From(tested, 64 * (w + 1)), 64 * v);
        ZeroWord(From(answered, 64 * (w + 1)), 64 * v);
      }
    }
  }

  /** Emits and clears one word. */
  method EmitPair(marks: array<bv64>, w: nat, r: seq<nat>, ghost out: seq<nat>, ghost tested: set<nat>, ghost answered: set<nat>)
    returns (r': seq<nat>)
    requires 2 * w + 1 < marks.Length
    requires Emitted(marks[..], r, out, tested, answered, w)
    modifies marks
    ensures Emitted(marks[..], r', out, tested, answered, w + 1)
  {
    ghost var before := marks[..];
    assert PairIs(before, w, From(tested, 64 * w), From(answered, 64 * w));
    var hits := marks[2 * w + 1];
    marks[2 * w] := 0;
    marks[2 * w + 1] := 0;
    PairCleared(before, marks[..], w, tested, answered);
    assert WordIs(hits, answered, 64 * w) by {
      assert WordIs(hits, From(answered, 64 * w), 64 * w);
    }
    r' := EmitWord(hits, 64 * w, r, answered, out);
  }

  /** Once every word has been emitted, nothing is marked and the answer is whole. */
  lemma AllEmitted(marks: seq<bv64>, r: seq<nat>, out: seq<nat>, tested: set<nat>, answered: set<nat>, w: nat, n: nat)
    requires Emitted(marks, r, out, tested, answered, w) && answered <= tested
    requires |marks| % 2 == 0 && n <= 64 * w && forall i :: i in tested ==> i < n
    ensures AllZero(marks) && r == out + Ascending(answered, n)
  {
    forall j | 0 <= j < |marks|
      ensures marks[j] == 0
    {
      var v := j / 2;
      assert PairIs(marks, v, From(tested, 64 * w), From(answered, 64 * w));
      WordZero(marks[2 * v], From(tested, 64 * w), 64 * v);
      WordZero(marks[2 * v + 1], From(answered, 64 * w), 64 * v);
    }
    AscendingSkip(answered, n, 64 * w);
  }
}
