/**
  The sorted byte buffer that holds a set of machine states during a scan.
 */
module RegexVectorSet {
  import opened Basics

  const MAX_NFA_STATES := 255

  ghost predicate Increasing(s: seq<u8>) {
    forall i, j :: 0 <= i < j < |s| ==> s[i] < s[j]
  }

  ghost function Elements(s: seq<u8>): set<int> {
    set i | 0 <= i < |s| :: s[i] as int
  }

  /** A strictly increasing buffer holds its elements at or above their index. */
  lemma {:induction false} IncreasingBound(s: seq<u8>, i: nat)
    requires Increasing(s) && i < |s|
    ensures i <= s[i] as int
  {
    if i > 0 { IncreasingBound(s, i - 1); }
  }

  function Inserted(s: seq<u8>, pos: nat, e: u8): seq<u8>
    requires pos <= |s|
  {
    s[..pos] + [e] + s[pos..]
  }

  ghost predicate Fits(s: seq<u8>) {
    Increasing(s) && forall i :: 0 <= i < |s| ==> (s[i] as int) < MAX_NFA_STATES
  }

  lemma {:induction false} FitsBound(s: seq<u8>)
    requires Fits(s)
    ensures |s| <= MAX_NFA_STATES
  {
    if s != [] { IncreasingBound(s, |s| - 1); }
  }

  /** Placing a new element before the first larger one keeps the buffer in order and in bounds. */
  lemma {:induction false} InsertedFits(s: seq<u8>, pos: nat, e: u8)
    requires Fits(s) && pos <= |s| && (e as int) < MAX_NFA_STATES
    requires forall i :: 0 <= i < pos ==> s[i] < e
    requires forall i :: pos <= i < |s| ==> e < s[i]
    ensures Fits(Inserted(s, pos, e)) && |s| + 1 <= MAX_NFA_STATES
    ensures Elements(Inserted(s, pos, e)) == Elements(s) + {e as int}
  {
    var t := Inserted(s, pos, e);
    assert t[pos] == e;
    forall i | 0 <= i < |s| ensures s[i] as int in Elements(t) {
      assert s[i] == if i < pos then t[i] else t[i + 1];
    }
    FitsBound(t);
  }

  class VectorSet {
    var pSet: array<u8>
    var sz: u8

    ghost predicate Valid()
      reads this, pSet
    {
      && pSet.Length == MAX_NFA_STATES + 1
      && sz as int <= MAX_NFA_STATES
      && Fits(pSet[..sz])
    }

    ghost function Contents(): set<int>
      reads this, pSet
      requires Valid()
    {
      Elements(pSet[..sz])
    }

    constructor ()
      ensures Valid() && fresh(pSet) && Contents() == {}
    {
      pSet := new u8[MAX_NFA_STATES + 1];
      sz := 0;
    }

    method Clear()
      requires Valid()
      modifies this`sz
      ensures Valid() && Contents() == {}
    {
      sz := 0;
    }

    /** Position of the first element not below elem. */
    method LowerBound(elem: int) returns (pos: nat)
      requires Valid()
      ensures pos <= sz as int
      ensures forall i :: 0 <= i < pos ==> (pSet[i] as int) < elem
      ensures forall i :: pos <= i < sz as int ==> elem <= pSet[i] as int
    {
      pos := 0;
      var hi := sz as int;
      while pos < hi
        invariant 0 <= pos <= hi <= sz as int
        invariant forall i :: 0 <= i < pos ==> (pSet[i] as int) < elem
        invariant forall i :: hi <= i < sz as int ==> elem <= pSet[i] as int
      {
        var mid := (pos + hi) / 2;
        assert forall i :: 0 <= i < mid ==> pSet[..sz][i] < pSet[..sz][mid];
        assert forall i :: mid < i < sz as int ==> pSet[..sz][mid] < pSet[..sz][i];
        if (pSet[mid] as int) < elem { pos := mid + 1; } else { hi := mid; }
      }
    }

    /** Moves the elements from pos on up by one place and puts e there. */
    method PlaceAt(pos: nat, e: u8)
      requires pSet.Length == MAX_NFA_STATES + 1 && pos <= sz as int < MAX_NFA_STATES
      modifies pSet
      ensures pSet[..sz as int + 1] == Inserted(old(pSet[..sz]), pos, e)
    {
      var i := sz as int;
      while i > pos
        invariant pos <= i <= sz as int
        invariant forall k :: 0 <= k < i ==> pSet[k] == old(pSet[k])
        invariant forall k :: i < k <= sz as int ==> pSet[k] == old(pSet[k - 1])
      {
        pSet[i] := pSet[i - 1];
        i := i - 1;
      }
      pSet[pos] := e;
    }

    /** With elements below 255 the byte-sized count never overflows. */
    method Insert(elem: int)
      requires Valid() && 0 <= elem < MAX_NFA_STATES
      modifies this`sz, pSet
      ensures Valid() && Contents() == old(Contents()) + {elem}
    {
      var pos := LowerBound(elem);
      ghost var before := pSet[..sz];
      assert forall i :: 0 <= i < sz as int ==> before[i] == pSet[i];
      if pos == sz as int || pSet[pos] as int != elem {
        InsertedFits(before, pos, elem as u8);
        PlaceAt(pos, elem as u8);
        sz := sz + 1;
      } else {
        assert before[pos] as int == elem;
      }
    }

    static method Swap(a: VectorSet, b: VectorSet)
      requires a != b
      modifies a, b
      ensures a.pSet == old(b.pSet) && a.sz == old(b.sz)
      ensures b.pSet == old(a.pSet) && b.sz == old(a.sz)
    {
      var p, n := a.pSet, a.sz;
      a.pSet, a.sz := b.pSet, b.sz;
      b.pSet, b.sz := p, n;
    }
  }
}
