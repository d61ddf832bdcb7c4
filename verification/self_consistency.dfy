/**
  `SelfConsistency.reason`: extract an answer from every sampled completion,
  keep the non-empty ones, tally them in the order they are first seen (a
  `Counter`) and return the most frequent one together with the raw batch.
  `Counter.most_common(1)` goes through `max`, which keeps the first of
  several maximal entries, so a tie goes to the answer seen first.
 */
module SelfConsistency {
  import opened Wrappers
  import opened Parser

  /** An extraction that takes part in the vote: present and not empty */
  predicate Votable(e: Option<string>) {
    e.Some? && e.value != ""
  }

  /** The parser's answer for every sample, in sample order */
  function Extractions(batch: seq<string>): (es: seq<Option<string>>)
    ensures |es| == |batch|
    ensures forall i :: 0 <= i < |batch| ==> es[i] == Extract(batch[i])
  {
    seq(|batch|, i requires 0 <= i < |batch| => Extract(batch[i]))
  }

  /** The votable answers, in sample order, duplicates kept */
  function Votes(es: seq<Option<string>>): (v: seq<string>)
    ensures |v| <= |es|
    ensures forall a :: a in v <==> a != "" && Some(a) in es
    decreases |es|
  {
    if |es| == 0 then []
    else
      var rest := Votes(es[1..]);
      assert es == [es[0]] + es[1..];
      if Votable(es[0]) then [es[0].value] + rest else rest
  }

  /** Each answer gets one vote per sample that extracted to it */
  lemma {:induction false} VotesCount(es: seq<Option<string>>, a: string)
    requires a != ""
    ensures multiset(Votes(es))[a] == multiset(es)[Some(a)]
    decreases |es|
  {
    if |es| > 0 {
      VotesCount(es[1..], a);
      assert es == [es[0]] + es[1..];
      assert multiset(es) == multiset{es[0]} + multiset(es[1..]);
      if Votable(es[0]) {
        assert multiset(Votes(es)) == multiset{es[0].value} + multiset(Votes(es[1..]));
      }
    }
  }

  /** The position of the first occurrence of `a` */
  function FirstIndex<T(==)>(xs: seq<T>, a: T): (k: nat)
    requires a in xs
    ensures k < |xs| && xs[k] == a
    ensures forall j :: 0 <= j < k ==> xs[j] != a
    decreases |xs|
  {
    if xs[0] == a then 0 else 1 + FirstIndex(xs[1..], a)
  }

  lemma FirstIndexUnique<T>(xs: seq<T>, a: T, k: nat)
    requires k < |xs| && xs[k] == a
    requires forall j :: 0 <= j < k ==> xs[j] != a
    ensures FirstIndex(xs, a) == k
  {
  }

  /** Appending a value moves no first occurrence, and gives a new value the last position */
  lemma FirstIndexAppend<T>(xs: seq<T>, a: T, b: T)
    requires b in xs + [a]
    ensures b in xs ==> FirstIndex(xs + [a], b) == FirstIndex(xs, b)
    ensures b !in xs ==> FirstIndex(xs + [a], b) == |xs|
  {
    var ys := xs + [a];
    if b in xs {
      var k := FirstIndex(xs, b);
      assert ys[k] == b;
      FirstIndexUnique(ys, b, k);
    } else {
      assert ys[|xs|] == b;
      FirstIndexUnique(ys, b, |xs|);
    }
  }

  /**
    The vote list keeps first-seen order: of two votable answers, the one a
    sample extracts to first also comes first among the votes.
   */
  lemma {:induction false} VotesFirstSeenOrder(es: seq<Option<string>>, a: string, b: string)
    requires a != "" && b != "" && Some(a) in es && Some(b) in es
    ensures a in Votes(es) && b in Votes(es)
    ensures FirstIndex(Votes(es), a) < FirstIndex(Votes(es), b) <==> FirstIndex(es, Some(a)) < FirstIndex(es, Some(b))
    decreases |es|
  {
    var v := Votes(es);
    assert es == [es[0]] + es[1..];
    if es[0] != Some(a) && es[0] != Some(b) {
      VotesFirstSeenOrder(es[1..], a, b);
    }
  }

  /** One `Counter` item: an answer and how many votes it has */
  datatype Entry = Entry(answer: string, count: nat)

  /** The answers of a tally, in insertion order */
  function Keys(t: seq<Entry>): (ks: seq<string>)
    ensures |ks| == |t|
    ensures forall k :: 0 <= k < |t| ==> ks[k] == t[k].answer
  {
    seq(|t|, k requires 0 <= k < |t| => t[k].answer)
  }

  /** Where `a` sits in the tally, or `|t|` when it is absent (the dictionary lookup) */
  function KeyIndex(t: seq<Entry>, a: string): (k: nat)
    ensures k <= |t|
    ensures k < |t| ==> t[k].answer == a
    ensures forall j :: 0 <= j < k ==> t[j].answer != a
    decreases |t|
  {
    if |t| == 0 then 0
    else if t[0].answer == a then 0
    else 1 + KeyIndex(t[1..], a)
  }

  /** `counter[a] += 1`: an existing entry is incremented in place, a new one goes last */
  function Bump(t: seq<Entry>, a: string): (r: seq<Entry>)
    ensures a in Keys(t) ==> Keys(r) == Keys(t)
    ensures a !in Keys(t) ==> Keys(r) == Keys(t) + [a]
    ensures forall k :: 0 <= k < |t| && t[k].answer != a ==> r[k] == t[k]
    ensures KeyIndex(r, a) < |r| && r[KeyIndex(r, a)].count == (if a in Keys(t) then t[KeyIndex(t, a)].count else 0) + 1
  {
    var k := KeyIndex(t, a);
    if k < |t| then
      var r := t[k := Entry(a, t[k].count + 1)];
      assert Keys(r) == Keys(t) && Keys(t)[k] == a;
      KeyIndexAt(r, a, k);
      r
    else
      var r := t + [Entry(a, 1)];
      assert Keys(r) == Keys(t) + [a];
      KeyIndexAt(r, a, |t|);
      r
  }

  /** The lookup finds the first entry holding `a` */
  lemma KeyIndexAt(t: seq<Entry>, a: string, k: nat)
    requires k < |t| && t[k].answer == a
    requires forall j :: 0 <= j < k ==> t[j].answer != a
    ensures KeyIndex(t, a) == k
  {
  }

  /** `Counter(xs)`: the tally built one vote at a time, left to right */
  function Tally(xs: seq<string>): (t: seq<Entry>)
    ensures TallyOf(t, xs)
    decreases |xs|
  {
    if |xs| == 0 then []
    else
      var ys, a := xs[..|xs| - 1], xs[|xs| - 1];
      assert xs == ys + [a];
      BumpStep(Tally(ys), ys, a);
      Bump(Tally(ys), a)
  }

  /**
    What a correct tally of `xs` is: one entry per distinct value of `xs`
    holding its number of occurrences, entries ordered by first occurrence.
   */
  ghost predicate TallyOf(t: seq<Entry>, xs: seq<string>) {
    CountsRight(t, xs) && Covers(t, xs) && DistinctKeys(t) && FirstSeenOrder(t, xs)
  }

  ghost predicate CountsRight(t: seq<Entry>, xs: seq<string>) {
    forall k :: 0 <= k < |t| ==> t[k].answer in xs && t[k].count == multiset(xs)[t[k].answer]
  }

  ghost predicate Covers(t: seq<Entry>, xs: seq<string>) {
    forall i :: 0 <= i < |xs| ==> xs[i] in Keys(t)
  }

  ghost predicate DistinctKeys(t: seq<Entry>) {
    forall k, j :: 0 <= k < j < |t| ==> t[k].answer != t[j].answer
  }

  ghost predicate FirstSeenOrder(t: seq<Entry>, xs: seq<string>) {
    forall k, j :: 0 <= k < j < |t| ==>
      (t[k].answer in xs && t[j].answer in xs && FirstIndex(xs, t[k].answer) < FirstIndex(xs, t[j].answer))
  }

  /** Adding one vote to a correct tally of `ys` gives a correct tally of `ys + [a]` */
  lemma BumpStep(t: seq<Entry>, ys: seq<string>, a: string)
    requires TallyOf(t, ys)
    ensures TallyOf(Bump(t, a), ys + [a])
  {
    if KeyIndex(t, a) == |t| {
      assert a !in Keys(t);
    }
    BumpCounts(t, ys, a);
    BumpCovers(t, ys, a);
    BumpDistinct(t, a);
    BumpOrder(t, ys, a);
  }

  lemma BumpCounts(t: seq<Entry>, ys: seq<string>, a: string)
    requires CountsRight(t, ys) && DistinctKeys(t)
    requires KeyIndex(t, a) == |t| ==> a !in ys
    ensures CountsRight(Bump(t, a), ys + [a])
  {
    var xs, r, m := ys + [a], Bump(t, a), KeyIndex(t, a);
    assert multiset(xs) == multiset(ys) + multiset{a};
    forall k | 0 <= k < |r|
      ensures r[k].answer in xs && r[k].count == multiset(xs)[r[k].answer]
    {
      if k == m {
        assert r[k].answer == a;
      } else {
        assert r[k] == t[k] && t[k].answer != a;
      }
    }
  }

  lemma BumpCovers(t: seq<Entry>, ys: seq<string>, a: string)
    requires Covers(t, ys)
    ensures Covers(Bump(t, a), ys + [a])
  {
    var xs, r, m := ys + [a], Bump(t, a), KeyIndex(t, a);
    forall i | 0 <= i < |xs|
      ensures xs[i] in Keys(r)
    {
      if i < |ys| {
        assert xs[i] == ys[i] && ys[i] in Keys(t);
        var k :| 0 <= k < |t| && Keys(t)[k] == ys[i];
        assert Keys(r)[k] == ys[i];
      } else if m < |t| {
        assert Keys(r)[m] == a;
      } else {
        assert Keys(r)[|t|] == a;
      }
    }
  }

  lemma BumpDistinct(t: seq<Entry>, a: string)
    requires DistinctKeys(t)
    ensures DistinctKeys(Bump(t, a))
  {
  }

  lemma BumpOrder(t: seq<Entry>, ys: seq<string>, a: string)
    requires CountsRight(t, ys) && FirstSeenOrder(t, ys)
    requires KeyIndex(t, a) == |t| ==> a !in ys
    ensures FirstSeenOrder(Bump(t, a), ys + [a])
  {
    var xs, r, m := ys + [a], Bump(t, a), KeyIndex(t, a);
    forall k | 0 <= k < |t|
      ensures t[k].answer in ys && FirstIndex(xs, t[k].answer) == FirstIndex(ys, t[k].answer)
    {
      FirstIndexAppend(ys, a, t[k].answer);
    }
    if m < |t| {
      forall k, j | 0 <= k < j < |r|
        ensures r[k].answer in xs && r[j].answer in xs && FirstIndex(xs, r[k].answer) < FirstIndex(xs, r[j].answer)
      {
        assert r[k].answer == t[k].answer && r[j].answer == t[j].answer;
      }
    } else {
      FirstIndexAppend(ys, a, a);
      forall k, j | 0 <= k < j < |r|
        ensures r[k].answer in xs && r[j].answer in xs && FirstIndex(xs, r[k].answer) < FirstIndex(xs, r[j].answer)
      {
        assert r[k] == t[k];
      }
    }
  }

  /** The index of the first entry with the highest count (what `max` keeps) */
  function ArgMax(t: seq<Entry>): (m: nat)
    requires |t| > 0
    ensures m < |t|
    ensures forall j :: 0 <= j < |t| ==> t[j].count <= t[m].count
    ensures forall j :: 0 <= j < m ==> t[j].count < t[m].count
    decreases |t|
  {
    if |t| == 1 then 0
    else
      var m := ArgMax(t[..|t| - 1]);
      if t[|t| - 1].count > t[m].count then |t| - 1 else m
  }

  /** `Counter(xs).most_common(1)[0][0]`, or None when there are no votes */
  function Vote(xs: seq<string>): (r: Option<string>)
    ensures r.None? <==> |xs| == 0
    ensures r.Some? ==> IsPluralityWinner(xs, r.value)
  {
    if |xs| == 0 then None
    else
      var t := Tally(xs);
      assert xs[0] in Keys(t);
      var m := ArgMax(t);
      TallyWinner(xs, t, m);
      Some(t[m].answer)
  }

  /**
    `w` wins the vote over `xs`: it has at least as many votes as any
    answer, and among the answers with that many votes it occurs first.
   */
  predicate IsPluralityWinner(xs: seq<string>, w: string) {
    && w in xs
    && forall b :: b in xs ==>
         && multiset(xs)[b] <= multiset(xs)[w]
         && (multiset(xs)[b] == multiset(xs)[w] ==> FirstIndex(xs, w) <= FirstIndex(xs, b))
  }

  lemma TallyWinner(xs: seq<string>, t: seq<Entry>, m: nat)
    requires TallyOf(t, xs) && |t| > 0 && m < |t|
    requires forall j :: 0 <= j < |t| ==> t[j].count <= t[m].count
    requires forall j :: 0 <= j < m ==> t[j].count < t[m].count
    ensures IsPluralityWinner(xs, t[m].answer)
  {
    var w := t[m].answer;
    forall b | b in xs
      ensures multiset(xs)[b] <= multiset(xs)[w]
      ensures multiset(xs)[b] == multiset(xs)[w] ==> FirstIndex(xs, w) <= FirstIndex(xs, b)
    {
      var i :| 0 <= i < |xs| && xs[i] == b;
      assert b in Keys(t);
      var j := KeyIndex(t, b);
      assert t[j].answer == b;
    }
  }

  /** At most one answer wins the vote */
  lemma PluralityWinnerUnique(xs: seq<string>, w1: string, w2: string)
    requires IsPluralityWinner(xs, w1) && IsPluralityWinner(xs, w2)
    ensures w1 == w2
  {
    assert FirstIndex(xs, w1) == FirstIndex(xs, w2);
  }

  /** The vote picks exactly the plurality winner with first-seen tie-break */
  lemma VoteIsPluralityWinner(xs: seq<string>, w: string)
    ensures Vote(xs) == Some(w) <==> IsPluralityWinner(xs, w)
  {
    if IsPluralityWinner(xs, w) {
      PluralityWinnerUnique(xs, Vote(xs).value, w);
    }
  }

  /** A batch casts no vote exactly when no sample extracts a votable answer */
  lemma NoVotesIff(batch: seq<string>)
    ensures |Votes(Extractions(batch))| == 0 <==> forall i :: 0 <= i < |batch| ==> !Votable(Extract(batch[i]))
  {
    var es := Extractions(batch);
    var v := Votes(es);
    if |v| > 0 {
      assert v[0] in v;
      var j :| 0 <= j < |es| && es[j] == Some(v[0]);
      assert Votable(Extract(batch[j]));
    }
  }

  /**
    `SelfConsistency.reason` on a batch of completions: the winning answer
    (or None) and the batch itself.
   */
  function Reason(batch: seq<string>): (r: (Option<string>, seq<string>))
    ensures r.1 == batch
    ensures |batch| == 0 ==> r.0.None?
    ensures r.0.None? <==> forall i :: 0 <= i < |batch| ==> !Votable(Extract(batch[i]))
    ensures r.0.Some? ==> IsPluralityWinner(Votes(Extractions(batch)), r.0.value)
  {
    if |batch| == 0 then (None, [])
    else
      var votes := Votes(Extractions(batch));
      NoVotesIff(batch);
      if |votes| == 0 then
        (None, batch)
      else
        (Vote(votes), batch)
  }

  /** The most frequent answer wins */
  lemma VoteMajorityExample(xs: seq<string>)
    requires xs == ["11", "11", "7"]
    ensures Vote(xs) == Some("11")
  {
    MajorityWinner(xs);
    VoteIsPluralityWinner(xs, "11");
  }

  lemma MajorityWinner(xs: seq<string>)
    requires xs == ["11", "11", "7"]
    ensures IsPluralityWinner(xs, "11")
  {
    assert multiset(xs) == multiset{"11", "11", "7"};
    assert forall b :: b in xs ==> b == "11" || b == "7";
    assert FirstIndex(xs, "11") == 0;
  }

  /** On a tie the answer seen first wins */
  lemma VoteTieExample(xs: seq<string>)
    requires xs == ["B", "A", "A", "B"]
    ensures Vote(xs) == Some("B")
  {
    TieWinner(xs);
    VoteIsPluralityWinner(xs, "B");
  }

  lemma TieWinner(xs: seq<string>)
    requires xs == ["B", "A", "A", "B"]
    ensures IsPluralityWinner(xs, "B")
  {
    assert multiset(xs) == multiset{"A", "A", "B", "B"};
    assert forall b :: b in xs ==> b == "A" || b == "B";
    assert FirstIndex(xs, "B") == 0;
  }
}
