/**
 * An ordered table of labels, each with its substring patterns, and the
 * "first label with a matching pattern wins" rule that both relationship
 * classifiers of the application follow.
 */
module PatternTable {
  import opened Text

  type Table<L> = seq<(L, seq<string>)>

  /** Some pattern of `patterns` occurs in `s`. */
  predicate AnyMatch(patterns: seq<string>, s: string) {
    exists j :: 0 <= j < |patterns| && Contains(s, patterns[j])
  }

  lemma AnyMatchCons(patterns: seq<string>, s: string)
    requires patterns != []
    ensures AnyMatch(patterns, s) <==> Contains(s, patterns[0]) || AnyMatch(patterns[1..], s)
  {
    if AnyMatch(patterns, s) && !Contains(s, patterns[0]) {
      var j :| 0 <= j < |patterns| && Contains(s, patterns[j]);
      assert patterns[1..][j - 1] == patterns[j];
    }
    if AnyMatch(patterns[1..], s) {
      var j :| 0 <= j < |patterns| - 1 && Contains(s, patterns[1..][j]);
      assert patterns[j + 1] == patterns[1..][j];
    }
  }

  /** Index of the first row with a matching pattern, or |table| when none matches. */
  function MatchIndex<L>(table: Table<L>, s: string): (i: nat)
    ensures i <= |table|
    ensures i < |table| ==> AnyMatch(table[i].1, s)
    ensures forall k :: 0 <= k < i ==> !AnyMatch(table[k].1, s)
    decreases |table|
  {
    if table == [] then 0
    else if AnyMatch(table[0].1, s) then 0
    else 1 + MatchIndex(table[1..], s)
  }

  /** The label of the first row with a matching pattern, or `fallback`. */
  function FirstMatch<L>(table: Table<L>, fallback: L, s: string): L {
    var i := MatchIndex(table, s);
    if i < |table| then table[i].0 else fallback
  }

  /** When row `i` matches and no earlier row does, row `i`'s label is the answer. */
  lemma FirstMatchAt<L>(table: Table<L>, fallback: L, s: string, i: nat)
    requires i < |table| && AnyMatch(table[i].1, s)
    requires forall k :: 0 <= k < i ==> !AnyMatch(table[k].1, s)
    ensures MatchIndex(table, s) == i
    ensures FirstMatch(table, fallback, s) == table[i].0
  {
  }

  /** A matching row bounds the winning row from above. */
  lemma MatchIndexAtMost<L>(table: Table<L>, s: string, i: nat)
    requires i < |table| && AnyMatch(table[i].1, s)
    ensures MatchIndex(table, s) <= i
  {
  }

  /** With no row matching, the fallback is the answer. */
  lemma FirstMatchNone<L>(table: Table<L>, fallback: L, s: string)
    requires forall k :: 0 <= k < |table| ==> !AnyMatch(table[k].1, s)
    ensures MatchIndex(table, s) == |table|
    ensures FirstMatch(table, fallback, s) == fallback
  {
  }
}
