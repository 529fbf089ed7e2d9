/**
 * `get_words_for_review`: the user's progress rows that are due, in priority
 * order (never reviewed first, then lowest knowledge, then earliest due time),
 * at most `limit` of them.  SQL leaves the order of rows with equal keys open;
 * the contract below holds for every such order.
 */
module ReviewQueue {
  import opened Models

  /** 0 for a word never reviewed, 1 otherwise: the first sort key (`IS NULL DESC`). */
  function ReviewedRank(p: Progress): int {
    if p.lastReviewedAt.None? then 0 else 1
  }

  /** `a` may be listed before `b`: the lexicographic order on the three sort keys. */
  predicate Before(a: Progress, b: Progress) {
    ReviewedRank(a) < ReviewedRank(b)
    || (ReviewedRank(a) == ReviewedRank(b)
        && (a.knowledgePercent < b.knowledgePercent
            || (a.knowledgePercent == b.knowledgePercent && a.nextReviewAt <= b.nextReviewAt)))
  }

  /** The order is total and transitive, so sorting by it is well defined up to ties. */
  lemma BeforeTotalPreorder(a: Progress, b: Progress, c: Progress)
    ensures Before(a, b) || Before(b, a)
    ensures Before(a, b) && Before(b, c) ==> Before(a, c)
  {
  }

  predicate Sorted(s: seq<Progress>) {
    forall i, j :: 0 <= i < j < |s| ==> Before(s[i], s[j])
  }

  /** A row is due for `userId` at `now`. */
  predicate IsDue(p: Progress, userId: nat, now: int) {
    p.userId == userId && p.nextReviewAt <= now
  }

  /** The `WHERE` clause: the rows of `userId` with `next_review_at <= now`, in table order. */
  function DueRows(rows: seq<Progress>, userId: nat, now: int): (r: seq<Progress>)
    ensures forall p :: p in r <==> p in rows && IsDue(p, userId, now)
    ensures multiset(r) <= multiset(rows)
  {
    if rows == [] then []
    else
      var rest := DueRows(rows[1..], userId, now);
      assert rows == [rows[0]] + rows[1..];
      if IsDue(rows[0], userId, now) then [rows[0]] + rest else rest
  }

  /** A row that may precede the head of a sorted sequence may precede all of it. */
  lemma {:induction false} PrependSorted(h: Progress, s: seq<Progress>)
    requires Sorted(s)
    requires s == [] || Before(h, s[0])
    ensures Sorted([h] + s)
  {
    var r := [h] + s;
    forall i, j | 0 <= i < j < |r| ensures Before(r[i], r[j]) {
      if i == 0 && j > 1 {
        BeforeTotalPreorder(h, s[0], s[j - 1]);
      }
    }
  }

  /** Putting the head back in front of the insertion into the tail keeps the order. */
  lemma {:induction false} InsertStep(p: Progress, s: seq<Progress>, rest: seq<Progress>)
    requires Sorted(s) && s != [] && !Before(p, s[0])
    requires Sorted(rest) && multiset(rest) == multiset(s[1..]) + multiset{p}
    ensures Sorted([s[0]] + rest)
    ensures multiset([s[0]] + rest) == multiset(s) + multiset{p}
  {
    assert s == [s[0]] + s[1..];
    BeforeTotalPreorder(p, s[0], p);
    if rest != [] {
      assert rest[0] in multiset(rest);
      assert rest[0] == p || rest[0] in s[1..];
    }
    PrependSorted(s[0], rest);
  }

  /** Inserts `p` into a sorted sequence before the first row it may precede. */
  function Insert(p: Progress, s: seq<Progress>): (r: seq<Progress>)
    requires Sorted(s)
    ensures Sorted(r)
    ensures multiset(r) == multiset(s) + multiset{p}
  {
    if s == [] then [p]
    else if Before(p, s[0]) then
      PrependSorted(p, s);
      [p] + s
    else
      var rest := Insert(p, s[1..]);
      InsertStep(p, s, rest);
      [s[0]] + rest
  }

  /** The `ORDER BY`: a permutation of `s` in priority order. */
  function SortByPriority(s: seq<Progress>): (r: seq<Progress>)
    ensures Sorted(r)
    ensures multiset(r) == multiset(s)
  {
    if s == [] then []
    else
      assert s == [s[0]] + s[1..];
      Insert(s[0], SortByPriority(s[1..]))
  }

  function Min(a: nat, b: nat): nat {
    if a <= b then a else b
  }

  /**
   * `get_words_for_review(user_id, limit)` at time `now`: `min(limit, #due)` due rows
   * of this user, in priority order, and none of the due rows left out ranks
   * strictly ahead of a row that was returned.
   */
  function WordsForReview(rows: seq<Progress>, userId: nat, now: int, limit: nat): (r: seq<Progress>)
    ensures |r| == Min(limit, |DueRows(rows, userId, now)|)
    ensures forall i :: 0 <= i < |r| ==> r[i] in rows && IsDue(r[i], userId, now)
    ensures Sorted(r)
    ensures multiset(r) <= multiset(DueRows(rows, userId, now))
    ensures forall p, i :: p in multiset(DueRows(rows, userId, now)) - multiset(r) && 0 <= i < |r|
                           ==> Before(r[i], p)
  {
    var due := DueRows(rows, userId, now);
    var sorted := SortByPriority(due);
    var n := Min(limit, |sorted|);
    PrefixOfSorted(sorted, n);
    MembersOfSubMultiset(sorted[..n], due, rows, userId, now);
    sorted[..n]
  }

  /** A prefix of a sorted sequence is sorted, part of it, and ahead of everything after it. */
  lemma {:induction false} PrefixOfSorted(sorted: seq<Progress>, n: nat)
    requires Sorted(sorted) && n <= |sorted|
    ensures Sorted(sorted[..n])
    ensures multiset(sorted[..n]) <= multiset(sorted)
    ensures forall p, i :: p in multiset(sorted) - multiset(sorted[..n]) && 0 <= i < n
                           ==> Before(sorted[..n][i], p)
  {
    var r := sorted[..n];
    assert sorted == r + sorted[n..];
    assert multiset(sorted) == multiset(r) + multiset(sorted[n..]);
    forall p, i | p in multiset(sorted) - multiset(r) && 0 <= i < n
      ensures Before(r[i], p)
    {
      assert p in multiset(sorted[n..]);
      assert p in sorted[n..];
      var j :| 0 <= j < |sorted[n..]| && sorted[n..][j] == p;
      assert sorted[n + j] == p;
    }
  }

  /** Rows drawn from the due rows are due rows of the table. */
  lemma {:induction false} MembersOfSubMultiset(r: seq<Progress>, due: seq<Progress>, rows: seq<Progress>,
                                                 userId: nat, now: int)
    requires due == DueRows(rows, userId, now)
    requires multiset(r) <= multiset(due)
    ensures forall i :: 0 <= i < |r| ==> r[i] in rows && IsDue(r[i], userId, now)
  {
    forall i | 0 <= i < |r| ensures r[i] in rows && IsDue(r[i], userId, now) {
      assert r[i] in multiset(r);
      assert r[i] in multiset(due);
    }
  }

  /**
   * A word never reviewed always wins over a reviewed one: if any due row is new,
   * the single row the scheduler asks for is new.
   */
  lemma {:induction false} NewWordsFirst(rows: seq<Progress>, userId: nat, now: int, p: Progress)
    requires p in rows && IsDue(p, userId, now) && p.lastReviewedAt.None?
    ensures |WordsForReview(rows, userId, now, 1)| == 1
    ensures WordsForReview(rows, userId, now, 1)[0].lastReviewedAt.None?
  {
    var due := DueRows(rows, userId, now);
    var r := WordsForReview(rows, userId, now, 1);
    assert p in due;
    assert |r| == 1;
    if r[0] != p {
      assert r == [r[0]];
      assert p in multiset(due) - multiset(r);
      assert Before(r[0], p);
    }
  }

  /** Nothing is selected exactly when no row of the user is due. */
  lemma {:induction false} NothingSelectedIffNoneDue(rows: seq<Progress>, userId: nat, now: int, limit: nat)
    requires limit > 0
    ensures WordsForReview(rows, userId, now, limit) == []
            <==> forall p :: p in rows ==> !IsDue(p, userId, now)
  {
    var due := DueRows(rows, userId, now);
    if due != [] {
      assert due[0] in due;
    }
  }
}
