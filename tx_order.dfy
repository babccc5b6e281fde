/**
 * The "most recent first" order of transaction rows that the simulation and benchmark scripts
 * sort with, and the SQL `ORDER BY` the benchmark compares it against.
 */
module TxOrder {
  import opened Wrappers
  import opened Ledger

  /** The primary key: the processing time when there is one, else the creation time. */
  function SortKey(t: Transaction): int {
    match t.processedAt
    case Some(p) => p
    case None => t.createdAt
  }

  /**
   * The comparator handed to `rows.sort`: negative when `a` goes first. Later sort keys first,
   * then later creation times, then larger ids.
   */
  function Compare(a: Transaction, b: Transaction): int {
    if SortKey(b) != SortKey(a) then SortKey(b) - SortKey(a)
    else if b.createdAt != a.createdAt then b.createdAt - a.createdAt
    else b.id - a.id
  }

  /** `a` may go before `b`. */
  predicate InOrder(a: Transaction, b: Transaction) {
    Compare(a, b) <= 0
  }

  /** The row carries a processing time, as every row the server and the scripts write does. */
  predicate Processed(t: Transaction) {
    t.processedAt.Some?
  }

  /**
   * `ORDER BY COALESCE(processed_at, created_at) DESC, created_at DESC, id DESC`: `a` precedes `b`
   * when its key triple is lexicographically larger. This is the database's text order only for
   * rows that carry `processed_at`: COALESCE then compares two `toISOString` texts, whose string
   * order is their time order. For a row without it, COALESCE compares a `CURRENT_TIMESTAMP` text
   * with an ISO text, and the string order can differ from the time order.
   */
  predicate SqlPrecedes(a: Transaction, b: Transaction) {
    SortKey(a) > SortKey(b)
    || (SortKey(a) == SortKey(b) && a.createdAt > b.createdAt)
    || (SortKey(a) == SortKey(b) && a.createdAt == b.createdAt && a.id > b.id)
  }

  /** For processed rows, the comparator and the SQL ordering agree: strictly before, tied, strictly after. */
  lemma CompareMatchesSql(a: Transaction, b: Transaction)
    requires Processed(a) && Processed(b)
    ensures Compare(a, b) < 0 <==> SqlPrecedes(a, b)
    ensures Compare(a, b) > 0 <==> SqlPrecedes(b, a)
    ensures Compare(a, b) == 0 <==> SortKey(a) == SortKey(b) && a.createdAt == b.createdAt && a.id == b.id
  {
  }

  /** The comparator is antisymmetric and transitive, and ties only rows with the same id. */
  lemma CompareIsTotalPreorder(a: Transaction, b: Transaction, c: Transaction)
    ensures Compare(a, b) == -Compare(b, a)
    ensures InOrder(a, b) || InOrder(b, a)
    ensures InOrder(a, b) && InOrder(b, c) ==> InOrder(a, c)
    ensures Compare(a, b) == 0 ==> a.id == b.id
  {
  }

  /** Every row may precede every later one. */
  predicate Sorted(s: seq<Transaction>) {
    forall i, j :: 0 <= i < j < |s| ==> InOrder(s[i], s[j])
  }

  /** No two rows share an id, as in any set of stored rows. */
  predicate DistinctIds(s: seq<Transaction>) {
    forall i, j :: 0 <= i < j < |s| ==> s[i].id != s[j].id
  }

  /** `rows.sort(comparator)`, in place: the rows end up in comparator order and nothing is lost or added. */
  method SortRows(rows: array<Transaction>)
    modifies rows
    ensures Sorted(rows[..])
    ensures multiset(rows[..]) == multiset(old(rows[..]))
  {
    for i := 0 to rows.Length
      invariant Sorted(rows[..i])
      invariant multiset(rows[..]) == multiset(old(rows[..]))
    {
      InsertLast(rows, i);
    }
    assert rows[..rows.Length] == rows[..];
  }

  /**
   * Insertion of `s[j]` into `s[..end + 1]` is under way: the other rows of the prefix are in order,
   * the moving row may precede every row after it, and its two neighbours are in order.
   */
  ghost predicate Inserting(s: seq<Transaction>, j: int, end: int) {
    && 0 <= j <= end < |s|
    && (forall p, q :: 0 <= p < q <= end && p != j && q != j ==> InOrder(s[p], s[q]))
    && (forall q :: j < q <= end ==> InOrder(s[j], s[q]))
    && (0 < j < end ==> InOrder(s[j - 1], s[j + 1]))
  }

  lemma InsertingStart(s: seq<Transaction>, end: int)
    requires 0 <= end < |s| && Sorted(s[..end])
    ensures Inserting(s, end, end)
  {
    assert forall p, q :: 0 <= p < q < end ==> s[p] == s[..end][p] && s[q] == s[..end][q];
  }

  /** Swapping the moving row with a left neighbour that must go after it keeps the insertion going. */
  lemma InsertingSwap(s: seq<Transaction>, t: seq<Transaction>, j: int, end: int)
    requires Inserting(s, j, end) && 0 < j && !InOrder(s[j - 1], s[j])
    requires t == s[j - 1 := s[j]][j := s[j - 1]]
    ensures Inserting(t, j - 1, end)
    ensures multiset(t) == multiset(s)
  {
    CompareIsTotalPreorder(s[j - 1], s[j], s[j]);
    forall q | j - 1 < q <= end
      ensures InOrder(t[j - 1], t[q])
    {
      if q > j {
        CompareIsTotalPreorder(s[j], s[j - 1], s[q]);
      }
    }
    if 1 < j {
      CompareIsTotalPreorder(s[j - 2], s[j - 1], s[j]);
    }
  }

  /** Once the moving row's left neighbour may precede it, the whole prefix is in order. */
  lemma InsertingDone(s: seq<Transaction>, j: int, end: int)
    requires Inserting(s, j, end) && (j == 0 || InOrder(s[j - 1], s[j]))
    ensures Sorted(s[..end + 1])
  {
    forall p, q | 0 <= p < q <= end
      ensures InOrder(s[p], s[q])
    {
      if q == j && p < j - 1 {
        CompareIsTotalPreorder(s[p], s[j - 1], s[j]);
      } else if p < j < q {
        CompareIsTotalPreorder(s[p], s[j], s[q]);
      }
    }
  }

  /** Moves `rows[end]` left into the sorted prefix before it. */
  method InsertLast(rows: array<Transaction>, end: int)
    requires 0 <= end < rows.Length
    requires Sorted(rows[..end])
    modifies rows
    ensures Sorted(rows[..end + 1])
    ensures multiset(rows[..]) == multiset(old(rows[..]))
  {
    InsertingStart(rows[..], end);
    var j := end;
    while j > 0 && !InOrder(rows[j - 1], rows[j])
      invariant Inserting(rows[..], j, end)
      invariant multiset(rows[..]) == multiset(old(rows[..]))
    {
      ghost var before := rows[..];
      rows[j - 1], rows[j] := rows[j], rows[j - 1];
      InsertingSwap(before, rows[..], j, end);
      j := j - 1;
    }
    InsertingDone(rows[..], j, end);
  }

  /** Sorted arrangements of the same rows with distinct ids start with the same row. */
  lemma SameFirst(a: seq<Transaction>, b: seq<Transaction>)
    requires Sorted(a) && Sorted(b) && DistinctIds(a)
    requires multiset(a) == multiset(b) && a != []
    ensures b != [] && a[0] == b[0]
  {
    assert a[0] in multiset(b);
    var k :| 0 <= k < |b| && b[k] == a[0];
    assert b[0] in multiset(a);
    var m :| 0 <= m < |a| && a[m] == b[0];
    if m != 0 {
      assert InOrder(a[0], a[m]);
      assert k != 0 ==> InOrder(b[0], b[k]);
      CompareIsTotalPreorder(a[0], a[m], a[0]);
      assert false;
    }
  }

  /** Two sorted arrangements of the same rows with distinct ids are the same sequence. */
  lemma {:induction false} SortedIsUnique(a: seq<Transaction>, b: seq<Transaction>)
    requires Sorted(a) && Sorted(b) && DistinctIds(a)
    requires multiset(a) == multiset(b)
    ensures a == b
    decreases |a|
  {
    if a == [] {
      assert |multiset(b)| == 0;
    } else {
      SameFirst(a, b);
      assert a == [a[0]] + a[1..] && b == [b[0]] + b[1..];
      assert multiset(a[1..]) == multiset(a) - multiset{a[0]};
      assert multiset(b[1..]) == multiset(b) - multiset{b[0]};
      SortedIsUnique(a[1..], b[1..]);
    }
  }

  /** Rows in SQL order. */
  predicate SqlSorted(s: seq<Transaction>) {
    forall i, j :: 0 <= i < j < |s| ==> !SqlPrecedes(s[j], s[i])
  }

  /** On processed rows, the client-side sort and the SQL `ORDER BY` return the same rows in the same order. */
  lemma ClientSortMatchesSql(client: seq<Transaction>, sql: seq<Transaction>)
    requires Sorted(client) && SqlSorted(sql) && DistinctIds(client)
    requires forall k :: 0 <= k < |client| ==> Processed(client[k])
    requires multiset(client) == multiset(sql)
    ensures client == sql
  {
    forall i, j | 0 <= i < j < |sql|
      ensures InOrder(sql[i], sql[j])
    {
      assert sql[i] in multiset(client) && sql[j] in multiset(client);
      CompareMatchesSql(sql[i], sql[j]);
    }
    SortedIsUnique(client, sql);
  }
}
