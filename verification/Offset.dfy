/** pkg/nfqlb/offset.go: first-fit search for a range of forwarding marks. */
module Offset {
  import opened Prelude

  /** The marks offset .. offset + maxTargets - 1 of a service. */
  datatype Range = Range(offset: int, maxTargets: int)

  /** 64-bit two's complement: what Go's `int` holds after an operation. */
  function Wrap(x: int): (r: int)
    ensures MIN_INT <= r <= MAX_INT
    ensures MIN_INT <= x <= MAX_INT ==> r == x
  {
    (x - MIN_INT) % 0x1_0000_0000_0000_0000 + MIN_INT
  }

  ghost predicate Apart(a: Range, b: Range) {
    a.offset + a.maxTargets <= b.offset || b.offset + b.maxTargets <= a.offset
  }

  /** A range a service may have: at least one mark, none negative, the end still a 64-bit number. */
  ghost predicate Wellformed(r: Range) {
    0 <= r.offset && 1 <= r.maxTargets && r.offset + r.maxTargets <= MAX_INT
  }

  ghost predicate Fits(offset: int, taken: map<string, Range>, maxTargets: int) {
    forall name :: name in taken ==> Apart(Range(offset, maxTargets), taken[name])
  }

  /** The least offset at or above the start with a well-formed range that misses every taken one. */
  ghost predicate FirstFit(startingOffset: int, taken: map<string, Range>, maxTargets: int, offset: int) {
    && startingOffset <= offset && Wellformed(Range(offset, maxTargets)) && Fits(offset, taken, maxTargets)
    && forall o :: startingOffset <= o < offset ==> !Fits(o, taken, maxTargets)
  }

  /** The ranges that end at or after an offset: the only ones the search can still run into. */
  ghost function Ahead(offset: int, taken: map<string, Range>): set<string> {
    set name | name in taken && offset <= taken[name].offset + taken[name].maxTargets - 1
  }

  /** getOffset: the least offset at or above the start whose range misses every taken one and stays within 64
      bits; an error exactly when there is none. Every computed value is the exact one (nothing wraps), every
      order of visiting the services gives this answer, and the search restarts at most once per service. */
  method GetOffset(startingOffset: int, taken: map<string, Range>, maxTargets: int)
      returns (r: Option<int>, ghost restarts: nat)
    requires 0 <= startingOffset <= MAX_INT && MIN_INT <= maxTargets <= MAX_INT
    requires forall name :: name in taken ==> Wellformed(taken[name])
    ensures r.Some? ==> FirstFit(startingOffset, taken, maxTargets, r.value)
    ensures r.None? ==>
              forall o :: startingOffset <= o && Wellformed(Range(o, maxTargets)) ==> !Fits(o, taken, maxTargets)
    ensures restarts <= |taken|
  {
    var offset := startingOffset;
    restarts := 0;
    SubsetCount(Ahead(offset, taken), taken.Keys);
    label search:
    while true
      invariant startingOffset <= offset <= MAX_INT
      invariant forall o :: startingOffset <= o < offset ==> !Fits(o, taken, maxTargets)
      invariant restarts + |Ahead(offset, taken)| <= |taken|
      decreases |Ahead(offset, taken)|
    {
      if offset >= Wrap(Wrap(MAX_INT - maxTargets) + 1) {
        return None, restarts;
      }
      var todo := taken.Keys;
      while todo != {}
        invariant todo <= taken.Keys
        invariant forall name :: name in taken && name !in todo ==> Apart(Range(offset, maxTargets), taken[name])
        decreases |todo|
      {
        var name :| name in todo;
        todo := todo - {name};
        var serviceStart := taken[name].offset;
        var serviceEnd := Wrap(Wrap(serviceStart + taken[name].maxTargets) - 1);
        var currentSearchStart := offset;
        var currentSearchEnd := Wrap(Wrap(offset + maxTargets) - 1);
        assert currentSearchEnd == offset + maxTargets - 1 && serviceEnd == serviceStart + taken[name].maxTargets - 1;
        if currentSearchStart <= serviceEnd && currentSearchEnd >= serviceStart {
          Skipped(offset, taken, maxTargets, name);
          offset := Wrap(serviceStart + taken[name].maxTargets);
          restarts := restarts + 1;
          continue search;
        }
      }
      break;
    }
    return Some(offset), restarts;
  }

  /** Everything up to the end of a range in the way is in its way too, and the range is behind from there on. */
  lemma Skipped(offset: int, taken: map<string, Range>, maxTargets: int, name: string)
    requires name in taken && !Apart(Range(offset, maxTargets), taken[name]) && maxTargets >= 1
    ensures var next := taken[name].offset + taken[name].maxTargets;
            && offset < next
            && (forall o :: offset <= o < next ==> !Fits(o, taken, maxTargets))
            && |Ahead(next, taken)| < |Ahead(offset, taken)|
  {
    var next := taken[name].offset + taken[name].maxTargets;
    forall o | offset <= o < next ensures !Fits(o, taken, maxTargets) {
      assert !Apart(Range(o, maxTargets), taken[name]);
    }
    assert Ahead(next, taken) <= Ahead(offset, taken);
    assert name in Ahead(offset, taken) && name !in Ahead(next, taken);
    SubsetCount(Ahead(next, taken) + {name}, Ahead(offset, taken));
  }

  /** The contract of GetOffset leaves one answer: first fit does not depend on the order of the services. */
  lemma FirstFitIsUnique(startingOffset: int, taken: map<string, Range>, maxTargets: int, a: int, b: int)
    requires FirstFit(startingOffset, taken, maxTargets, a) && FirstFit(startingOffset, taken, maxTargets, b)
    ensures a == b
  {
  }

  /** Ranges of distinct services are disjoint. */
  ghost predicate Disjoint(taken: map<string, Range>) {
    forall m, n :: m in taken && n in taken && m != n ==> Apart(taken[m], taken[n])
  }

  lemma AddRange(taken: map<string, Range>, name: string, r: Range)
    requires Disjoint(taken) && Fits(r.offset, taken, r.maxTargets)
    ensures Disjoint(taken[name := r])
  {
  }

  /** In disjoint ranges, a mark belongs to one target of one service. */
  lemma MarksDoNotCollide(taken: map<string, Range>, m: string, i: int, n: string, j: int)
    requires Disjoint(taken) && m in taken && n in taken
    requires 0 <= i < taken[m].maxTargets && 0 <= j < taken[n].maxTargets
    ensures i + taken[m].offset == j + taken[n].offset ==> m == n && i == j
  {
    assert m != n ==> Apart(taken[m], taken[n]);
  }
}
