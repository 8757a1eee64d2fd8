/**
 * Match game: the first six flashcards become twelve tiles, a question tile
 * and an answer tile per card, shuffled by Fisher-Yates. The player clicks
 * two tiles; a question and the answer of the same card are a match and
 * stay matched, any other pair is shown as wrong until a timeout clears it.
 *
 * The random swap indices are a parameter: `js[i]` is the value
 * `Math.floor(Math.random() * (i + 1))` took when the loop was at `i`. The
 * 800 ms timeout is the separate step `TimeoutClear`.
 */
module MatchGame {
  import opened Types

  // ---------------------------------------------------------------------------
  // Tiles
  // ---------------------------------------------------------------------------

  datatype ItemType = Question | Answer

  /** `q-<index>` or `a-<index>`: the kind of the tile and the position of its card. */
  datatype ItemId = ItemId(kind: ItemType, index: nat)

  datatype MatchItem = MatchItem(text: string, kind: ItemType, matched: bool, originalIndex: nat)

  function Id(item: MatchItem): ItemId {
    ItemId(item.kind, item.originalIndex)
  }

  /** At most six cards take part. */
  const MaxPairs: nat := 6

  function PairCount(cards: seq<Flashcard>): (m: nat)
    ensures m <= MaxPairs && m <= |cards|
    ensures m == MaxPairs || m == |cards|
  {
    if |cards| < MaxPairs then |cards| else MaxPairs
  }

  /** The tile `initGame` pushes at position `i`: the question of card `i / 2` at even positions, its answer at odd ones. */
  function BuiltItem(cards: seq<Flashcard>, i: nat): MatchItem
    requires i / 2 < |cards|
  {
    if i % 2 == 0 then MatchItem(cards[i / 2].q, Question, false, i / 2)
    else MatchItem(cards[i / 2].a, Answer, false, i / 2)
  }

  /** No two tiles share an id. */
  predicate DistinctIds(s: seq<MatchItem>) {
    forall p, q :: 0 <= p < q < |s| ==> Id(s[p]) != Id(s[q])
  }

  /**
   * The tiles before shuffling: two per card among the first six, unmatched,
   * with ids `q-k` and `a-k` for each card k.
   */
  function Built(cards: seq<Flashcard>): (r: seq<MatchItem>)
    ensures |r| == 2 * PairCount(cards)
    ensures forall i :: 0 <= i < |r| ==> !r[i].matched && r[i].originalIndex < PairCount(cards)
    ensures forall k :: 0 <= k < PairCount(cards) ==>
              r[2 * k] == MatchItem(cards[k].q, Question, false, k)
              && r[2 * k + 1] == MatchItem(cards[k].a, Answer, false, k)
  {
    seq(2 * PairCount(cards), i requires 0 <= i < 2 * PairCount(cards) => BuiltItem(cards, i))
  }

  /** Every id in the built tiles occurs once. */
  lemma BuiltDistinct(cards: seq<Flashcard>)
    ensures DistinctIds(Built(cards))
  {
    var r := Built(cards);
    forall p, q | 0 <= p < q < |r| ensures Id(r[p]) != Id(r[q]) {
      if p / 2 == q / 2 {
        assert p % 2 == 0 && q % 2 == 1;
      }
    }
  }

  // ---------------------------------------------------------------------------
  // Fisher-Yates
  // ---------------------------------------------------------------------------

  /** `[s[i], s[j]] = [s[j], s[i]]`. */
  function Swap<T>(s: seq<T>, i: nat, j: nat): (r: seq<T>)
    requires i < |s| && j < |s|
    ensures |r| == |s| && r[i] == s[j] && r[j] == s[i]
    ensures forall k :: 0 <= k < |s| && k != i && k != j ==> r[k] == s[k]
  {
    s[i := s[j]][j := s[i]]
  }

  /** Swap indices as the shuffle draws them: the one for position `i` is at most `i`. */
  predicate ValidSwaps(js: seq<nat>, n: nat) {
    |js| == n && forall i :: 0 < i < n ==> js[i] <= i
  }

  /** The swaps of the shuffle loop still to do once it has reached position `i`, going down to 1. */
  function ShuffleFrom<T>(s: seq<T>, js: seq<nat>, i: nat): seq<T>
    requires i < |s| && ValidSwaps(js, |s|)
    decreases i
  {
    if i == 0 then s else ShuffleFrom(Swap(s, i, js[i]), js, i - 1)
  }

  /** The whole shuffle loop, from the last position down to 1. */
  function Shuffle<T>(s: seq<T>, js: seq<nat>): seq<T>
    requires ValidSwaps(js, |s|)
  {
    if |s| == 0 then s else ShuffleFrom(s, js, |s| - 1)
  }

  lemma SwapPermutes<T>(s: seq<T>, i: nat, j: nat)
    requires i < |s| && j < |s|
    ensures multiset(Swap(s, i, j)) == multiset(s)
  {
    var t := s[i := s[j]];
    assert multiset(t) == multiset(s) - multiset{s[i]} + multiset{s[j]};
  }

  /** The shuffle only reorders: it yields a permutation of its input. */
  lemma {:induction false} ShuffleFromPermutes<T>(s: seq<T>, js: seq<nat>, i: nat)
    requires i < |s| && ValidSwaps(js, |s|)
    ensures |ShuffleFrom(s, js, i)| == |s|
    ensures multiset(ShuffleFrom(s, js, i)) == multiset(s)
    decreases i
  {
    if i > 0 {
      SwapPermutes(s, i, js[i]);
      ShuffleFromPermutes(Swap(s, i, js[i]), js, i - 1);
    }
  }

  lemma ShufflePermutes<T>(s: seq<T>, js: seq<nat>)
    requires ValidSwaps(js, |s|)
    ensures |Shuffle(s, js)| == |s| && multiset(Shuffle(s, js)) == multiset(s)
  {
    if |s| > 0 {
      ShuffleFromPermutes(s, js, |s| - 1);
    }
  }

  /** A swap keeps the ids distinct. */
  lemma SwapDistinct(s: seq<MatchItem>, i: nat, j: nat)
    requires i < |s| && j < |s| && DistinctIds(s)
    ensures DistinctIds(Swap(s, i, j))
  {
    var r := Swap(s, i, j);
    forall p, q | 0 <= p < q < |r| ensures Id(r[p]) != Id(r[q]) {
      var p' := if p == i then j else if p == j then i else p;
      var q' := if q == i then j else if q == j then i else q;
      assert r[p] == s[p'] && r[q] == s[q'] && p' != q';
    }
  }

  /** The shuffle keeps the ids distinct. */
  lemma {:induction false} ShuffleFromDistinct(s: seq<MatchItem>, js: seq<nat>, i: nat)
    requires i < |s| && ValidSwaps(js, |s|) && DistinctIds(s)
    ensures DistinctIds(ShuffleFrom(s, js, i))
    decreases i
  {
    if i > 0 {
      SwapDistinct(s, i, js[i]);
      ShuffleFromDistinct(Swap(s, i, js[i]), js, i - 1);
    }
  }

  lemma ShuffleDistinct(s: seq<MatchItem>, js: seq<nat>)
    requires ValidSwaps(js, |s|) && DistinctIds(s)
    ensures DistinctIds(Shuffle(s, js))
  {
    if |s| > 0 {
      ShuffleFromDistinct(s, js, |s| - 1);
    }
  }

  /**
   * The dealt tiles: a permutation of the built ones, with distinct ids,
   * all unmatched.
   */
  lemma DealtTiles(cards: seq<Flashcard>, js: seq<nat>)
    requires ValidSwaps(js, 2 * PairCount(cards))
    ensures var d := Shuffle(Built(cards), js);
            |d| == 2 * PairCount(cards) && multiset(d) == multiset(Built(cards))
            && DistinctIds(d) && CountMatched(d) == 0
  {
    var b := Built(cards);
    var d := Shuffle(b, js);
    assert |d| == |b| && multiset(d) == multiset(b) by {
      ShufflePermutes(b, js);
    }
    assert DistinctIds(d) by {
      BuiltDistinct(cards);
      ShuffleDistinct(b, js);
    }
    PermutationUnmatched(d, b);
  }

  /** A permutation of unmatched tiles has none matched. */
  lemma PermutationUnmatched(d: seq<MatchItem>, b: seq<MatchItem>)
    requires multiset(d) == multiset(b)
    requires forall i :: 0 <= i < |b| ==> !b[i].matched
    ensures CountMatched(d) == 0
  {
    forall i | 0 <= i < |d| ensures !d[i].matched {
      assert d[i] in multiset(d);
      assert d[i] in b;
    }
    NoneMatched(d);
  }

  // ---------------------------------------------------------------------------
  // Matching
  // ---------------------------------------------------------------------------

  /** `items.filter(i => i.matched).length`. */
  function CountMatched(s: seq<MatchItem>): (n: nat)
    ensures n <= |s|
  {
    if s == [] then 0 else CountMatched(s[..|s| - 1]) + (if s[|s| - 1].matched then 1 else 0)
  }

  lemma {:induction false} NoneMatched(s: seq<MatchItem>)
    requires forall i :: 0 <= i < |s| ==> !s[i].matched
    ensures CountMatched(s) == 0
    decreases |s|
  {
    if s != [] {
      NoneMatched(s[..|s| - 1]);
    }
  }

  /** All tiles are matched exactly when the count reaches the number of tiles. */
  lemma {:induction false} AllMatchedIff(s: seq<MatchItem>)
    ensures CountMatched(s) == |s| <==> forall i :: 0 <= i < |s| ==> s[i].matched
    decreases |s|
  {
    if s != [] {
      var t := s[..|s| - 1];
      AllMatchedIff(t);
      if forall i :: 0 <= i < |s| ==> s[i].matched {
        assert forall i :: 0 <= i < |t| ==> t[i].matched by {
          forall i | 0 <= i < |t| ensures t[i].matched { assert t[i] == s[i]; }
        }
      }
      if CountMatched(s) == |s| {
        forall i | 0 <= i < |s| ensures s[i].matched {
          if i < |t| { assert s[i] == t[i]; }
        }
      }
    }
  }

  /** `items.map(i => i.originalIndex === k ? { ...i, matched: true } : i)`. */
  function MarkMatched(s: seq<MatchItem>, k: nat): (r: seq<MatchItem>)
    ensures |r| == |s|
    ensures forall i :: 0 <= i < |s| ==> r[i] == if s[i].originalIndex == k then s[i].(matched := true) else s[i]
  {
    seq(|s|, i requires 0 <= i < |s| => if s[i].originalIndex == k then s[i].(matched := true) else s[i])
  }

  /** How many tiles of card `k` are still unmatched. */
  function UnmatchedOf(s: seq<MatchItem>, k: nat): nat {
    if s == [] then 0
    else UnmatchedOf(s[..|s| - 1], k) + (if s[|s| - 1].originalIndex == k && !s[|s| - 1].matched then 1 else 0)
  }

  /** Marking card `k` matched adds its unmatched tiles to the count. */
  lemma {:induction false} MarkMatchedCount(s: seq<MatchItem>, k: nat)
    ensures CountMatched(MarkMatched(s, k)) == CountMatched(s) + UnmatchedOf(s, k)
    decreases |s|
  {
    if s != [] {
      var n := |s| - 1;
      assert MarkMatched(s, k)[..n] == MarkMatched(s[..n], k);
      MarkMatchedCount(s[..n], k);
    }
  }

  /** Marking keeps the ids. */
  lemma MarkMatchedIds(s: seq<MatchItem>, k: nat)
    requires DistinctIds(s)
    ensures DistinctIds(MarkMatched(s, k))
  {
    var r := MarkMatched(s, k);
    assert forall i :: 0 <= i < |s| ==> Id(r[i]) == Id(s[i]);
  }

  /** When `p` and `q` are the only tiles of card `k` among the first `n` and both are unmatched, the count is theirs. */
  lemma {:induction false} UnmatchedOfPair(s: seq<MatchItem>, k: nat, p: nat, q: nat, n: nat)
    requires p < |s| && q < |s| && p != q && n <= |s|
    requires s[p].originalIndex == k && s[q].originalIndex == k && !s[p].matched && !s[q].matched
    requires forall r :: 0 <= r < |s| && s[r].originalIndex == k ==> r == p || r == q
    ensures UnmatchedOf(s[..n], k) == (if p < n then 1 else 0) + (if q < n then 1 else 0)
    decreases n
  {
    if n > 0 {
      assert s[..n][..n - 1] == s[..n - 1];
      UnmatchedOfPair(s, k, p, q, n - 1);
    }
  }

  /** With distinct ids, a question and an answer of card `k` are the only tiles of that card. */
  lemma OnlyPair(s: seq<MatchItem>, p: nat, q: nat)
    requires DistinctIds(s) && p < |s| && q < |s|
    requires s[p].originalIndex == s[q].originalIndex && s[p].kind != s[q].kind
    ensures forall r :: 0 <= r < |s| && s[r].originalIndex == s[p].originalIndex ==> r == p || r == q
  {
    forall r | 0 <= r < |s| && s[r].originalIndex == s[p].originalIndex ensures r == p || r == q {
      if s[r].kind == s[p].kind {
        assert Id(s[r]) == Id(s[p]);
      } else {
        assert Id(s[r]) == Id(s[q]);
      }
    }
  }

  /**
   * Matching the unmatched question and answer at `p` and `q` keeps the ids
   * distinct, adds exactly two to the count, and leaves every tile matched
   * exactly when the count reaches the number of tiles.
   */
  lemma MatchCounts(s: seq<MatchItem>, p: nat, q: nat)
    requires DistinctIds(s) && p < |s| && q < |s|
    requires IsMatch(s[q], s[p]) && !s[p].matched && !s[q].matched
    ensures var r := MarkMatched(s, s[p].originalIndex);
            && DistinctIds(r)
            && CountMatched(r) == CountMatched(s) + 2
            && (CountMatched(r) == |r| <==> forall i :: 0 <= i < |r| ==> r[i].matched)
  {
    var k := s[p].originalIndex;
    OnlyPair(s, p, q);
    UnmatchedOfPair(s, k, p, q, |s|);
    assert s[..|s|] == s;
    MarkMatchedCount(s, k);
    MarkMatchedIds(s, k);
    AllMatchedIff(MarkMatched(s, k));
  }

  // ---------------------------------------------------------------------------
  // The board
  // ---------------------------------------------------------------------------

  class MatchBoard {
    const flashcards: seq<Flashcard>
    var items: seq<MatchItem>
    var selected: Option<MatchItem>
    var wrongPair: seq<ItemId>
    var score: nat
    var moves: nat
    var gameComplete: bool

    /**
     * Tile ids are distinct; a selected tile is an unmatched tile of the
     * board; two tiles are matched per point scored; a point costs a move;
     * the game is complete exactly when every tile of a non-empty board is matched.
     * The board keeps its two tiles per dealt card, so the score never
     * exceeds the number of pairs.
     */
    ghost predicate Valid()
      reads this
    {
      && |items| == 2 * PairCount(flashcards)
      && score <= PairCount(flashcards)
      && DistinctIds(items)
      && (selected.Some? ==> selected.value in items && !selected.value.matched)
      && CountMatched(items) == 2 * score
      && score <= moves
      && (gameComplete <==> |items| > 0 && CountMatched(items) == |items|)
    }

    /** The board mounts with a first deal. */
    constructor (flashcards: seq<Flashcard>, js: seq<nat>)
      requires ValidSwaps(js, 2 * PairCount(flashcards))
      ensures Valid() && this.flashcards == flashcards
      ensures items == Shuffle(Built(flashcards), js)
      ensures selected == None && wrongPair == [] && score == 0 && moves == 0 && !gameComplete
    {
      this.flashcards := flashcards;
      items := [];
      selected := None;
      wrongPair := [];
      score := 0;
      moves := 0;
      gameComplete := false;
      new;
      InitGame(js);
    }

    /**
     * `initGame`: push the question and answer tile of each of the first six
     * cards, shuffle them in place, and reset the selection and counters.
     */
    method InitGame(js: seq<nat>)
      requires ValidSwaps(js, 2 * PairCount(flashcards))
      modifies this
      ensures Valid()
      ensures items == Shuffle(Built(flashcards), js)
      ensures selected == None && wrongPair == [] && score == 0 && moves == 0 && !gameComplete
    {
      items := Deal(flashcards, js);
      selected := None;
      score := 0;
      moves := 0;
      gameComplete := false;
      wrongPair := [];
      DealtTiles(flashcards, js);
    }

    /**
     * `handleClick(item)` for the tile at position `pos`: ignored when the
     * tile is matched or shown as wrong; otherwise it selects, deselects,
     * or completes an attempt, which counts a move and is a match exactly
     * when the two tiles are the question and answer of one card.
     */
    method HandleClick(pos: nat)
      requires Valid() && pos < |items|
      modifies this
      ensures Valid()
      ensures var item := old(items)[pos];
              item.matched || Id(item) in old(wrongPair) ==>
                items == old(items) && selected == old(selected) && wrongPair == old(wrongPair)
                && score == old(score) && moves == old(moves) && gameComplete == old(gameComplete)
      ensures var item := old(items)[pos];
              !item.matched && Id(item) !in old(wrongPair) && old(selected).None? ==>
                selected == Some(item) && items == old(items) && moves == old(moves) && score == old(score)
                && wrongPair == old(wrongPair) && gameComplete == old(gameComplete)
      ensures var item := old(items)[pos];
              !item.matched && Id(item) !in old(wrongPair) && old(selected).Some? && Id(old(selected).value) == Id(item) ==>
                selected == None && items == old(items) && moves == old(moves) && score == old(score)
                && wrongPair == old(wrongPair) && gameComplete == old(gameComplete)
      ensures var item := old(items)[pos];
              !item.matched && Id(item) !in old(wrongPair) && old(selected).Some? && Id(old(selected).value) != Id(item) ==>
                moves == old(moves) + 1
                && (IsMatch(old(selected).value, item) ==>
                      items == MarkMatched(old(items), item.originalIndex) && score == old(score) + 1
                      && selected == None && wrongPair == old(wrongPair)
                      && (gameComplete <==> forall i :: 0 <= i < |items| ==> items[i].matched))
                && (!IsMatch(old(selected).value, item) ==>
                      wrongPair == [Id(old(selected).value), Id(item)] && items == old(items)
                      && selected == old(selected) && score == old(score) && gameComplete == old(gameComplete))
    {
      var item := items[pos];
      if item.matched || Id(item) in wrongPair {
        return;
      }
      if selected.None? {
        selected := Some(item);
      } else if Id(selected.value) == Id(item) {
        selected := None;
      } else {
        moves := moves + 1;
        if IsMatch(selected.value, item) {
          ApplyMatch(pos);
        } else {
          wrongPair := [Id(selected.value), Id(item)];
        }
      }
    }

    /** The correct-match branch of `handleClick`: both tiles of the card become matched and a point is scored. */
    method ApplyMatch(pos: nat)
      requires |items| == 2 * PairCount(flashcards)
      requires DistinctIds(items) && pos < |items| && !items[pos].matched
      requires selected.Some? && selected.value in items && !selected.value.matched
      requires IsMatch(selected.value, items[pos])
      requires CountMatched(items) == 2 * score && score < moves
      requires gameComplete <==> |items| > 0 && CountMatched(items) == |items|
      modifies this`items, this`score, this`selected, this`gameComplete
      ensures Valid()
      ensures items == MarkMatched(old(items), old(items)[pos].originalIndex)
      ensures score == old(score) + 1 && selected == None
      ensures gameComplete <==> forall i :: 0 <= i < |items| ==> items[i].matched
    {
      var k := items[pos].originalIndex;
      var p :| 0 <= p < |items| && items[p] == selected.value;
      MatchCounts(items, pos, p);
      var matchedCount := CountMatched(items) + 2;
      items := MarkMatched(items, k);
      score := score + 1;
      selected := None;
      if matchedCount == |items| {
        gameComplete := true;
      }
    }

    /** The 800 ms timeout after a wrong pair: clear the pair and the selection. */
    method TimeoutClear()
      requires Valid()
      modifies this`wrongPair, this`selected
      ensures Valid() && wrongPair == [] && selected == None
    {
      wrongPair := [];
      selected := None;
    }
  }

  /** Two tiles are a match when they belong to the same card and are of different kinds. */
  predicate IsMatch(a: MatchItem, b: MatchItem) {
    a.originalIndex == b.originalIndex && a.kind != b.kind
  }

  /** The tiles `initGame` deals: built into an array and shuffled there. */
  method Deal(cards: seq<Flashcard>, js: seq<nat>) returns (dealt: seq<MatchItem>)
    requires ValidSwaps(js, 2 * PairCount(cards))
    ensures dealt == Shuffle(Built(cards), js)
  {
    var gameItems := BuildItems(cards);
    ShuffleItems(gameItems, js);
    dealt := gameItems[..];
  }

  /** The push loop of `initGame`, into a fresh array. */
  method BuildItems(cards: seq<Flashcard>) returns (a: array<MatchItem>)
    ensures fresh(a) && a[..] == Built(cards)
  {
    var m := PairCount(cards);
    a := new MatchItem[2 * m](i => MatchItem("", Question, false, 0));
    for k := 0 to m
      invariant forall i :: 0 <= i < 2 * k ==> a[i] == BuiltItem(cards, i)
    {
      a[2 * k] := MatchItem(cards[k].q, Question, false, k);
      a[2 * k + 1] := MatchItem(cards[k].a, Answer, false, k);
    }
  }

  /** The Fisher-Yates loop of `initGame`, swapping in place from the last position down to 1. */
  method ShuffleItems(a: array<MatchItem>, js: seq<nat>)
    requires ValidSwaps(js, a.Length)
    modifies a
    ensures a[..] == Shuffle(old(a[..]), js)
  {
    if a.Length == 0 {
      return;
    }
    var i := a.Length - 1;
    while i > 0
      invariant 0 <= i < a.Length
      invariant ShuffleFrom(a[..], js, i) == Shuffle(old(a[..]), js)
      decreases i
    {
      var j := js[i];
      a[i], a[j] := a[j], a[i];
      i := i - 1;
    }
  }
}
