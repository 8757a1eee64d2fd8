/**
 * The key-term glossary: a case-insensitive search that keeps the terms
 * whose name or definition contains the query, and a header click that
 * expands one shown term at a time.
 */
module KeyTerms {
  import opened Types
  import opened Text

  /** The search condition: the lower-cased query occurs in the lower-cased term or definition. */
  predicate Matches(t: KeyTerm, query: string) {
    Includes(ToLower(t.term), ToLower(query)) || Includes(ToLower(t.definition), ToLower(query))
  }

  /** `terms.filter(...)` over the first `n` terms. */
  function FilterUpTo(terms: seq<KeyTerm>, query: string, n: nat): (r: seq<KeyTerm>)
    requires n <= |terms|
    ensures |r| <= n
    ensures forall k :: 0 <= k < |r| ==> Matches(r[k], query)
  {
    if n == 0 then []
    else FilterUpTo(terms, query, n - 1) + (if Matches(terms[n - 1], query) then [terms[n - 1]] else [])
  }

  /** `filteredTerms`. */
  function Filter(terms: seq<KeyTerm>, query: string): seq<KeyTerm> {
    FilterUpTo(terms, query, |terms|)
  }

  /** The positions among the first `n` whose terms meet the search condition, in increasing order. */
  function KeptPositions(terms: seq<KeyTerm>, query: string, n: nat): (ps: seq<nat>)
    requires n <= |terms|
    ensures forall k :: 0 <= k < |ps| ==> ps[k] < n && Matches(terms[ps[k]], query)
    ensures forall k, l :: 0 <= k < l < |ps| ==> ps[k] < ps[l]
    ensures forall i :: 0 <= i < n && Matches(terms[i], query) ==> i in ps
  {
    if n == 0 then []
    else KeptPositions(terms, query, n - 1) + (if Matches(terms[n - 1], query) then [n - 1] else [])
  }

  /**
   * The filtered list is the order-preserving subsequence of `terms` at
   * exactly the positions whose terms meet the condition: it keeps no other
   * term, drops none of those, and does not reorder them.
   */
  lemma {:induction false} FilterIsSubsequence(terms: seq<KeyTerm>, query: string, n: nat)
    requires n <= |terms|
    ensures var ps := KeptPositions(terms, query, n);
            |FilterUpTo(terms, query, n)| == |ps|
            && forall k :: 0 <= k < |ps| ==> FilterUpTo(terms, query, n)[k] == terms[ps[k]]
  {
    if n > 0 {
      FilterIsSubsequence(terms, query, n - 1);
    }
  }

  /** Every term that meets the search condition is shown. */
  lemma FilterComplete(terms: seq<KeyTerm>, query: string, i: nat)
    requires i < |terms| && Matches(terms[i], query)
    ensures terms[i] in Filter(terms, query)
  {
    var ps := KeptPositions(terms, query, |terms|);
    FilterIsSubsequence(terms, query, |terms|);
    var k :| 0 <= k < |ps| && ps[k] == i;
    assert Filter(terms, query)[k] == terms[i];
  }

  /** The empty query keeps every term, in order. */
  lemma {:induction false} EmptyQueryKeepsAll(terms: seq<KeyTerm>, n: nat)
    requires n <= |terms|
    ensures FilterUpTo(terms, "", n) == terms[..n]
  {
    if n > 0 {
      EmptyQueryKeepsAll(terms, n - 1);
      assert ToLower("") == "";
      IncludesEmptyAndSelf(ToLower(terms[n - 1].term));
      assert terms[..n] == terms[..n - 1] + [terms[n - 1]];
    }
  }

  /** The search does not see the letter case of the query. */
  lemma QueryCaseIgnored(terms: seq<KeyTerm>, query: string)
    ensures Filter(terms, ToLower(query)) == Filter(terms, query)
  {
    assert ToLower(ToLower(query)) == ToLower(query);
    FilterSameCondition(terms, ToLower(query), query, |terms|);
  }

  lemma {:induction false} FilterSameCondition(terms: seq<KeyTerm>, q1: string, q2: string, n: nat)
    requires n <= |terms| && ToLower(q1) == ToLower(q2)
    ensures FilterUpTo(terms, q1, n) == FilterUpTo(terms, q2, n)
  {
    if n > 0 {
      FilterSameCondition(terms, q1, q2, n - 1);
    }
  }

  class KeyTermsView {
    const terms: seq<KeyTerm>
    var searchQuery: string
    var expandedTerm: Option<nat>

    constructor (terms: seq<KeyTerm>)
      ensures this.terms == terms && searchQuery == "" && expandedTerm == None
    {
      this.terms := terms;
      searchQuery := "";
      expandedTerm := None;
    }

    /** The terms shown for the current query. */
    function Shown(): seq<KeyTerm>
      reads this
    {
      Filter(terms, searchQuery)
    }

    /** Typing in the search box replaces the query; the expanded position is kept as it is. */
    method SetSearchQuery(text: string)
      modifies this`searchQuery
      ensures searchQuery == text && expandedTerm == old(expandedTerm)
    {
      searchQuery := text;
    }

    /** A click on the header of the shown term at `index` expands it, or collapses it when it is the expanded one. */
    method ToggleTerm(index: nat)
      requires |terms| > 0 && index < |Shown()|
      modifies this`expandedTerm
      ensures old(expandedTerm) == Some(index) ==> expandedTerm == None
      ensures old(expandedTerm) != Some(index) ==> expandedTerm == Some(index)
    {
      expandedTerm := if expandedTerm == Some(index) then None else Some(index);
    }
  }
}
