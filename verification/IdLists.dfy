/** Lists of distinct ids, which stand for the linked lists of the sources. */
module IdLists {

  ghost predicate Distinct(q: seq<int>) {
    forall i, j :: 0 <= i < j < |q| ==> q[i] != q[j]
  }

  function One(b: bool): nat {
    if b then 1 else 0
  }

  lemma Cardinality(s: set<int>, id: int)
    ensures |s + {id}| == |s| + One(id !in s)
    ensures |s - {id}| == |s| - One(id in s)
  {
    if id in s {
      assert s + {id} == s;
    } else {
      assert s - {id} == s;
    }
  }

  lemma Element(s: set<int>) returns (x: int)
    requires |s| > 0
    ensures x in s
  {
    assert (forall y :: y !in s) ==> s == {};
    x :| x in s;
  }

  /** The place of an id on a list. */
  function IndexOf(q: seq<int>, id: int): (i: nat)
    requires id in q
    ensures i < |q| && q[i] == id
  {
    if q[0] == id then 0 else 1 + IndexOf(q[1..], id)
  }

  /** TAILQ_REMOVE. */
  function Removed(q: seq<int>, id: int): seq<int> {
    if id in q then Cut(q, IndexOf(q, id)) else q
  }

  function Cut(q: seq<int>, i: nat): seq<int>
    requires i < |q|
  {
    q[..i] + q[i + 1..]
  }

  function Behind(i: nat, k: nat): nat {
    if k < i then k else k + 1
  }

  lemma CutAt(q: seq<int>, i: nat)
    requires i < |q|
    ensures |Cut(q, i)| == |q| - 1
    ensures forall k :: 0 <= k < |q| - 1 ==> Cut(q, i)[k] == q[Behind(i, k)]
  {
  }

  lemma CutMembers(q: seq<int>, i: nat)
    requires i < |q| && Distinct(q)
    ensures Distinct(Cut(q, i))
    ensures forall x :: x in Cut(q, i) <==> x in q && x != q[i]
  {
    hide Cut;
    CutAt(q, i);
    var r := Cut(q, i);
    forall x | x in q && x != q[i] ensures x in r {
      var k :| 0 <= k < |q| && q[k] == x;
      assert r[if k < i then k else k - 1] == x;
    }
    forall x | x in r ensures x in q && x != q[i] {
      var k :| 0 <= k < |r| && r[k] == x;
      assert q[Behind(i, k)] == x;
    }
  }

  lemma RemovedMembers(q: seq<int>, id: int)
    requires Distinct(q) && id in q
    ensures Distinct(Removed(q, id)) && |Removed(q, id)| == |q| - 1
    ensures forall x :: x in Removed(q, id) <==> x in q && x != id
  {
    CutMembers(q, IndexOf(q, id));
  }

  /** An id put in at place `k`. */
  function InsertedAt(q: seq<int>, k: nat, id: int): seq<int>
    requires k <= |q|
  {
    q[..k] + [id] + q[k..]
  }

  lemma InsertedMembers(q: seq<int>, k: nat, id: int)
    requires k <= |q| && Distinct(q) && id !in q
    ensures Distinct(InsertedAt(q, k, id))
    ensures forall x :: x in InsertedAt(q, k, id) <==> x in q || x == id
  {
    var r := InsertedAt(q, k, id);
    assert forall i :: 0 <= i < |r| ==> r[i] == if i < k then q[i] else if i == k then id else q[i - 1];
    assert r[k] == id;
    forall x | x in q ensures x in r {
      var i := IndexOf(q, x);
      assert r[if i < k then i else i + 1] == x;
    }
  }

  /** The members of a list. */
  function Members(q: seq<int>): set<int> {
    set id | id in q
  }

  lemma MembersRemoved(q: seq<int>, id: int)
    requires Distinct(q) && id in q
    ensures Members(Removed(q, id)) == Members(q) - {id} && |Removed(q, id)| == |q| - 1
  {
    RemovedMembers(q, id);
  }

  lemma {:induction false} DistinctSize(q: seq<int>)
    requires Distinct(q)
    ensures |Members(q)| == |q|
  {
    if q != [] {
      var n := |q| - 1;
      DistinctSize(q[..n]);
      assert Members(q) == Members(q[..n]) + {q[n]};
      assert q[n] !in q[..n];
    }
  }

  /** The numbers below `n`. */
  function Below(n: nat): set<int> {
    if n == 0 then {} else Below(n - 1) + {n - 1}
  }

  lemma {:induction false} BelowSize(n: nat)
    ensures |Below(n)| == n && forall x :: x in Below(n) <==> 0 <= x < n
  {
    if n > 0 {
      BelowSize(n - 1);
    }
  }
}
