/** stab_binsearch (kern/kdebug.c:59-106): a binary search over one type of record interleaved with others. */
module StabSearch {
  const WORDS := 0x1_0000_0000

  /** uintptr_t. */
  type Address = a: nat | a < WORDS

  /** struct Stab: the fields the search looks at. */
  datatype Stab = Stab(kind: nat, value: Address)

  /** Entry `i` has the type searched for and lies in [lo, hi]. */
  predicate Matches(stabs: seq<Stab>, kind: nat, lo: int, hi: int, i: int) {
    0 <= i < |stabs| && lo <= i <= hi && stabs[i].kind == kind
  }

  /** No entry of the type in [lo, hi]. */
  ghost predicate NoMatch(stabs: seq<Stab>, kind: nat, lo: int, hi: int) {
    forall i :: !Matches(stabs, kind, lo, hi, i)
  }

  /** Some entry of the type in [lo, hi] has value `v`. */
  ghost predicate Present(stabs: seq<Stab>, kind: nat, lo: int, hi: int, v: nat) {
    exists i :: Matches(stabs, kind, lo, hi, i) && stabs[i].value == v
  }

  /** The values of the type are non-decreasing. */
  ghost predicate Ordered(stabs: seq<Stab>, kind: nat, lo: int, hi: int) {
    forall i, j | Matches(stabs, kind, lo, hi, i) && Matches(stabs, kind, lo, hi, j) && i <= j ::
      stabs[i].value <= stabs[j].value
  }

  /** Every matching entry in [lo, hi] has a value less than `v`. */
  ghost predicate AllBelow(stabs: seq<Stab>, kind: nat, lo: int, hi: int, v: nat) {
    forall i | Matches(stabs, kind, lo, hi, i) :: stabs[i].value < v
  }

  ghost predicate AllAbove(stabs: seq<Stab>, kind: nat, lo: int, hi: int, v: nat) {
    forall i | Matches(stabs, kind, lo, hi, i) :: stabs[i].value > v
  }

  /** Every address from `from` up to but excluding `to` is the value of an entry. */
  ghost predicate AllPresent(stabs: seq<Stab>, kind: nat, lo: int, hi: int, from: nat, to: nat) {
    forall v: nat | from <= v < to :: Present(stabs, kind, lo, hi, v)
  }

  /** `left` is a matching entry in [lo, hi], `right` ends just before the next one, or at `hi`, and all from there on
      lie above `address`. */
  ghost predicate Region(stabs: seq<Stab>, kind: nat, lo: int, hi: int, address: nat, left: int, right: int) {
    && Matches(stabs, kind, lo, hi, left) && left <= right <= hi
    && NoMatch(stabs, kind, left + 1, right) && AllAbove(stabs, kind, right + 1, hi, address)
    && (right == hi || Matches(stabs, kind, lo, hi, right + 1))
  }

  /** The region that contains `address`: `left` is the last matching entry with a value at most `address`. */
  ghost predicate Brackets(stabs: seq<Stab>, kind: nat, lo: int, hi: int, address: nat, left: int, right: int) {
    Region(stabs, kind, lo, hi, address, left, right) && stabs[left].value <= address
  }

  /** Where the search ends with ordered values, some of them at most `address`: at that region, or at one above it if
      every address from `address` up to its value is the value of an entry. */
  ghost predicate Lands(stabs: seq<Stab>, kind: nat, lo: int, hi: int, address: nat, left: int, right: int) {
    Region(stabs, kind, lo, hi, address, left, right)
    && AllPresent(stabs, kind, lo, hi, address, stabs[left].value)
  }

  /** The search has run over the last address there is: it ends just before an entry with that value. */
  ghost predicate RunsOver(stabs: seq<Stab>, kind: nat, lo: int, hi: int, left: int, right: int) {
    left == right && Matches(stabs, kind, lo, hi, right + 1) && stabs[right + 1].value == WORDS - 1
  }

  lemma EmptyRange(stabs: seq<Stab>, kind: nat, lo: int, hi: int)
    requires lo > hi
    ensures NoMatch(stabs, kind, lo, hi)
  {
  }

  lemma MatchInRange(stabs: seq<Stab>, kind: nat, lo: int, hi: int, m: int)
    requires Matches(stabs, kind, lo, hi, m)
    ensures !NoMatch(stabs, kind, lo, hi) && Present(stabs, kind, lo, hi, stabs[m].value)
  {
  }

  lemma NotAt(stabs: seq<Stab>, kind: nat, lo: int, hi: int, m: int)
    requires NoMatch(stabs, kind, lo, hi) && lo <= m <= hi && 0 <= m < |stabs|
    ensures stabs[m].kind != kind
  {
    assert !Matches(stabs, kind, lo, hi, m);
  }

  lemma NothingAbove(stabs: seq<Stab>, kind: nat, lo: int, hi: int, v: nat)
    requires NoMatch(stabs, kind, lo, hi)
    ensures AllAbove(stabs, kind, lo, hi, v)
  {
  }

  lemma ExtendUp(stabs: seq<Stab>, kind: nat, lo: int, hi: int)
    requires NoMatch(stabs, kind, lo, hi - 1) && 0 <= hi < |stabs| && stabs[hi].kind != kind
    ensures NoMatch(stabs, kind, lo, hi)
  {
    forall i ensures !Matches(stabs, kind, lo, hi, i) {
      assert !Matches(stabs, kind, lo, hi - 1, i);
    }
  }

  /** The last matching entry in [l, m], or l - 1. */
  function LastMatch(stabs: seq<Stab>, kind: nat, l: int, m: int): (j: int)
    requires 0 <= l <= m + 1 && m < |stabs|
    ensures l - 1 <= j <= m && NoMatch(stabs, kind, j + 1, m) && (j >= l ==> stabs[j].kind == kind)
    decreases m - l + 1
  {
    if m >= l && stabs[m].kind != kind then
      var j := LastMatch(stabs, kind, l, m - 1);
      ExtendUp(stabs, kind, j + 1, m);
      j
    else m
  }

  /** A plain binary search of [l, r] for `address` finds an entry with that value, and from it up to the end of what is
      left to search there is one with the next. */
  ghost predicate Overshoots(stabs: seq<Stab>, kind: nat, l: int, r: int, address: nat)
    requires 0 <= l && r < |stabs|
    decreases r - l
  {
    l <= r &&
    var mid := (l + r) / 2;
    var m := LastMatch(stabs, kind, l, mid);
    if m < l || stabs[m].value < address then Overshoots(stabs, kind, mid + 1, r, address)
    else if stabs[m].value > address then Overshoots(stabs, kind, l, m - 1, address)
    else Present(stabs, kind, m, r, address + 1)
  }

  /** How the search ends: with an empty region if there is no entry of the type; and for ordered values: below the
      first entry if all of them lie above `address`, else as `Lands` says, above `address` exactly if the search
      overshoots. Only where every address from `address` to the last one is the value of an entry it may run over
      that, and does so if `address` is the last one. */
  ghost predicate Answer(stabs: seq<Stab>, kind: nat, lo: int, hi: int, address: nat, left: int, right: int)
    requires 0 <= lo && hi < |stabs|
  {
    if NoMatch(stabs, kind, lo, hi) then left == lo && right == lo - 1
    else Ordered(stabs, kind, lo, hi) ==>
      if AllAbove(stabs, kind, lo, hi, address) then
        && NoMatch(stabs, kind, lo, right) && Matches(stabs, kind, lo, hi, right + 1)
        && left == if right < lo then right else lo
      else if AllPresent(stabs, kind, lo, hi, address, WORDS) then
        || RunsOver(stabs, kind, lo, hi, left, right)
        || (Lands(stabs, kind, lo, hi, address, left, right) && address < WORDS - 1)
      else
        && Lands(stabs, kind, lo, hi, address, left, right)
        && (stabs[left].value > address <==> Overshoots(stabs, kind, lo, hi, address))
  }

  /** What is known while the search narrows [l, r], looking for `addr` by now: below l values are less than `addr`,
      with `left` the last such entry if there is one; above r values are larger than the address given; and every
      address from that one to `addr` has been found. */
  ghost predicate Narrowed(stabs: seq<Stab>, kind: nat, lo: int, hi: int, address: nat, addr: nat, l: int, r: int,
                           left: int) {
    && address <= addr && AllPresent(stabs, kind, lo, hi, address, addr)
    && AllBelow(stabs, kind, lo, l - 1, addr) && AllAbove(stabs, kind, r + 1, hi, address)
    && (r == hi || Matches(stabs, kind, lo, hi, r + 1))
    && if Matches(stabs, kind, lo, hi, left) && stabs[left].value < addr then
         left <= l && left <= r && NoMatch(stabs, kind, left + 1, l - 1)
       else left == lo && NoMatch(stabs, kind, lo, l - 1) && addr == address
  }

  /** What is known of overshooting: nothing before the address given has been found; after that, it has happened, or
      will exactly if the next address is still to be found. */
  ghost predicate Tracks(stabs: seq<Stab>, kind: nat, lo: int, hi: int, address: nat, addr: nat, l: int, r: int,
                         left: int)
    requires 0 <= lo && hi < |stabs| && 0 <= l && r < |stabs|
  {
    if addr == address then
      Overshoots(stabs, kind, l, r, address) == Overshoots(stabs, kind, lo, hi, address)
    else
      && 0 <= left < |stabs|
      && (addr > address + 1 ==> stabs[left].value > address)
      && (Overshoots(stabs, kind, lo, hi, address) <==>
            stabs[left].value > address || Present(stabs, kind, l, r, address + 1))
  }

  lemma Join(stabs: seq<Stab>, kind: nat, lo: int, mid: int, hi: int)
    requires NoMatch(stabs, kind, lo, mid - 1) && NoMatch(stabs, kind, mid, hi)
    ensures NoMatch(stabs, kind, lo, hi)
  {
    forall i ensures !Matches(stabs, kind, lo, hi, i) {
      assert !Matches(stabs, kind, lo, mid - 1, i) && !Matches(stabs, kind, mid, hi, i);
    }
  }

  lemma Shrink(stabs: seq<Stab>, kind: nat, lo: int, lo': int, hi: int)
    requires NoMatch(stabs, kind, lo, hi) && lo <= lo'
    ensures NoMatch(stabs, kind, lo', hi)
  {
    forall i | Matches(stabs, kind, lo', hi, i) ensures Matches(stabs, kind, lo, hi, i) {
    }
  }

  /** A value that no entry outside [l', r'] has is present in [l, r] only there. */
  lemma StillPresent(stabs: seq<Stab>, kind: nat, l: int, r: int, l': int, r': int, v: nat)
    requires l <= l' && r' <= r
    requires forall i | Matches(stabs, kind, l, r, i) && !(l' <= i <= r') :: stabs[i].value != v
    ensures Present(stabs, kind, l, r, v) <==> Present(stabs, kind, l', r', v)
  {
    if Present(stabs, kind, l, r, v) {
      var i :| Matches(stabs, kind, l, r, i) && stabs[i].value == v;
      assert Matches(stabs, kind, l', r', i);
    }
    if Present(stabs, kind, l', r', v) {
      var i :| Matches(stabs, kind, l', r', i) && stabs[i].value == v;
      assert Matches(stabs, kind, l, r, i);
    }
  }

  /** No match in [l, t]: the search goes on above t. */
  lemma SkipKeeps(stabs: seq<Stab>, kind: nat, lo: int, hi: int, address: nat, addr: nat, l: int, r: int, left: int,
                  t: int)
    requires Narrowed(stabs, kind, lo, hi, address, addr, l, r, left) && lo <= l <= t <= r <= hi
    requires NoMatch(stabs, kind, l, t)
    ensures Narrowed(stabs, kind, lo, hi, address, addr, t + 1, r, left)
  {
    hide AllPresent;
    forall i | Matches(stabs, kind, lo, t, i) ensures stabs[i].value < addr {
      assert !Matches(stabs, kind, l, t, i);
      assert Matches(stabs, kind, lo, l - 1, i);
    }
    if Matches(stabs, kind, lo, hi, left) && stabs[left].value < addr {
      Join(stabs, kind, left + 1, l, t);
    } else {
      Join(stabs, kind, lo, l, t);
    }
  }

  /** A match at m with a value less than `addr`: everything up to it is less, and it is the last such entry up to t. */
  lemma BelowKeeps(stabs: seq<Stab>, kind: nat, lo: int, hi: int, address: nat, addr: nat, l: int, r: int, left: int,
                   m: int, t: int)
    requires Narrowed(stabs, kind, lo, hi, address, addr, l, r, left) && Ordered(stabs, kind, lo, hi)
    requires lo <= l <= m <= t <= r <= hi && NoMatch(stabs, kind, m + 1, t)
    requires Matches(stabs, kind, lo, hi, m) && stabs[m].value < addr
    ensures Narrowed(stabs, kind, lo, hi, address, addr, t + 1, r, m)
  {
    hide AllPresent;
    forall i | Matches(stabs, kind, lo, t, i) ensures stabs[i].value < addr {
      assert !Matches(stabs, kind, m + 1, t, i);
      assert Matches(stabs, kind, lo, hi, i);
    }
  }

  /** A match at m with a larger value: everything from it on is larger. */
  lemma AboveKeeps(stabs: seq<Stab>, kind: nat, lo: int, hi: int, address: nat, addr: nat, l: int, r: int, left: int,
                   m: int)
    requires Narrowed(stabs, kind, lo, hi, address, addr, l, r, left) && Ordered(stabs, kind, lo, hi)
    requires lo <= l <= m <= r <= hi && Matches(stabs, kind, lo, hi, m) && stabs[m].value > addr
    ensures Narrowed(stabs, kind, lo, hi, address, addr, l, m - 1, left)
  {
    hide AllPresent;
    forall i | Matches(stabs, kind, m, hi, i) ensures stabs[i].value > address {
      assert Matches(stabs, kind, lo, hi, i);
    }
  }

  /** A match at m with the value `addr`: now the next address is looked for, from m on. */
  lemma HitKeeps(stabs: seq<Stab>, kind: nat, lo: int, hi: int, address: nat, addr: nat, l: int, r: int, left: int,
                 m: int)
    requires Narrowed(stabs, kind, lo, hi, address, addr, l, r, left) && Ordered(stabs, kind, lo, hi)
    requires lo <= l <= m <= r <= hi && Matches(stabs, kind, lo, hi, m) && stabs[m].value == addr
    ensures Narrowed(stabs, kind, lo, hi, address, addr + 1, m, r, m)
  {
    MatchInRange(stabs, kind, lo, hi, m);
    forall i | Matches(stabs, kind, lo, m - 1, i) ensures stabs[i].value < addr + 1 {
      assert Matches(stabs, kind, lo, hi, i);
    }
    hide Present;
    assert AllPresent(stabs, kind, lo, hi, address, addr + 1);
  }

  lemma SkipTracks(stabs: seq<Stab>, kind: nat, lo: int, hi: int, address: nat, addr: nat, l: int, r: int, left: int)
    requires 0 <= lo <= l <= r <= hi < |stabs| && LastMatch(stabs, kind, l, (l + r) / 2) < l
    requires Tracks(stabs, kind, lo, hi, address, addr, l, r, left)
    ensures Tracks(stabs, kind, lo, hi, address, addr, (l + r) / 2 + 1, r, left)
  {
    var t := (l + r) / 2;
    forall i | Matches(stabs, kind, l, r, i) ensures i > t {
      assert !Matches(stabs, kind, l, t, i);
    }
    StillPresent(stabs, kind, l, r, t + 1, r, address + 1);
  }

  lemma BelowTracks(stabs: seq<Stab>, kind: nat, lo: int, hi: int, address: nat, addr: nat, l: int, r: int, left: int,
                    m: int)
    requires 0 <= lo <= l <= r <= hi < |stabs| && LastMatch(stabs, kind, l, (l + r) / 2) == m >= l
    requires Narrowed(stabs, kind, lo, hi, address, addr, l, r, left) && Ordered(stabs, kind, lo, hi)
    requires stabs[m].value < addr && Tracks(stabs, kind, lo, hi, address, addr, l, r, left)
    ensures Tracks(stabs, kind, lo, hi, address, addr, (l + r) / 2 + 1, r, m)
  {
    var t := (l + r) / 2;
    hide AllPresent, AllAbove, AllBelow;
    if addr != address {
      assert Matches(stabs, kind, lo, hi, m) && Matches(stabs, kind, lo, hi, left);
      assert stabs[left].value <= stabs[m].value;
      if stabs[m].value <= address {
        forall i | Matches(stabs, kind, l, r, i) && i <= t ensures stabs[i].value <= address {
          assert !Matches(stabs, kind, m + 1, t, i);
          assert Matches(stabs, kind, lo, hi, i);
        }
        StillPresent(stabs, kind, l, r, t + 1, r, address + 1);
      }
    }
  }

  lemma AboveTracks(stabs: seq<Stab>, kind: nat, lo: int, hi: int, address: nat, addr: nat, l: int, r: int, left: int,
                    m: int)
    requires 0 <= lo <= l <= r <= hi < |stabs| && LastMatch(stabs, kind, l, (l + r) / 2) == m >= l
    requires Ordered(stabs, kind, lo, hi) && address <= addr
    requires stabs[m].value > addr && Tracks(stabs, kind, lo, hi, address, addr, l, r, left)
    ensures Tracks(stabs, kind, lo, hi, address, addr, l, m - 1, left)
  {
    if addr != address {
      assert Matches(stabs, kind, lo, hi, m);
      forall i | Matches(stabs, kind, l, r, i) && i >= m ensures stabs[i].value > address + 1 {
        assert Matches(stabs, kind, lo, hi, i);
      }
      StillPresent(stabs, kind, l, r, l, m - 1, address + 1);
    }
  }

  lemma HitTracks(stabs: seq<Stab>, kind: nat, lo: int, hi: int, address: nat, addr: nat, l: int, r: int, left: int,
                  m: int)
    requires 0 <= lo <= l <= r <= hi < |stabs| && LastMatch(stabs, kind, l, (l + r) / 2) == m >= l
    requires address <= addr
    requires stabs[m].value == addr && Tracks(stabs, kind, lo, hi, address, addr, l, r, left)
    ensures Tracks(stabs, kind, lo, hi, address, addr + 1, m, r, m)
  {
    assert Matches(stabs, kind, l, r, m);
  }

  /** When the search interval is empty, what has been narrowed down is the answer. */
  lemma EmptyInterval(stabs: seq<Stab>, kind: nat, lo: int, hi: int, address: nat, addr: nat, r: int, left: int)
    requires 0 <= lo <= r + 1 <= hi + 1 <= |stabs| && addr <= WORDS && Ordered(stabs, kind, lo, hi)
    requires Narrowed(stabs, kind, lo, hi, address, addr, r + 1, r, left)
    ensures NoMatch(stabs, kind, left + 1, r)
    ensures !AllAbove(stabs, kind, lo, hi, address) ==>
      Lands(stabs, kind, lo, hi, address, left, r) && stabs[left].value < addr
    ensures Present(stabs, kind, lo, hi, address) ==> addr > address
    ensures AllAbove(stabs, kind, lo, hi, address) ==> left == lo && NoMatch(stabs, kind, lo, r)
    ensures AllAbove(stabs, kind, lo, hi, address) && !NoMatch(stabs, kind, lo, hi) ==>
      Matches(stabs, kind, lo, hi, r + 1)
  {
    assert Present(stabs, kind, lo, hi, address) ==> addr > address by {
      forall i | Matches(stabs, kind, lo, hi, i) && stabs[i].value == address ensures addr > address {
        assert Matches(stabs, kind, lo, r, i) || Matches(stabs, kind, r + 1, hi, i);
      }
    }
    if Matches(stabs, kind, lo, hi, left) && stabs[left].value < addr {
      assert stabs[left].value > address ==> Present(stabs, kind, lo, hi, address);
    } else {
      Shrink(stabs, kind, lo, lo + 1, r);
      forall i | Matches(stabs, kind, lo, hi, i) ensures stabs[i].value > address {
        assert !Matches(stabs, kind, lo, r, i);
        assert Matches(stabs, kind, r + 1, hi, i);
      }
    }
  }

  /** After the last address has been found at `left` and the address sought is 0, everything left is larger. */
  ghost predicate Wrapped(stabs: seq<Stab>, kind: nat, lo: int, hi: int, address: nat, l: int, r: int, left: int) {
    && Matches(stabs, kind, lo, hi, left) && stabs[left].value == WORDS - 1 && l == left <= r + 1
    && AllPresent(stabs, kind, lo, hi, address, WORDS)
  }

  lemma WrapStarts(stabs: seq<Stab>, kind: nat, lo: int, hi: int, address: nat, l: int, r: int, left: int, m: int)
    requires Narrowed(stabs, kind, lo, hi, address, WORDS - 1, l, r, left) && lo <= l <= m <= r <= hi
    requires Matches(stabs, kind, lo, hi, m) && stabs[m].value == WORDS - 1
    ensures Wrapped(stabs, kind, lo, hi, address, m, r, m)
  {
    MatchInRange(stabs, kind, lo, hi, m);
    hide Present;
  }

  /** What the loop knows. */
  ghost predicate Searching(stabs: seq<Stab>, kind: nat, lo: int, hi: int, address: nat, addr: nat, l: int, r: int,
                            left: int, wrapped: bool)
    requires 0 <= lo && hi < |stabs| && 0 <= l && r < |stabs|
  {
    if wrapped then addr == 0 && Wrapped(stabs, kind, lo, hi, address, l, r, left)
    else Narrowed(stabs, kind, lo, hi, address, addr, l, r, left)
         && Tracks(stabs, kind, lo, hi, address, addr, l, r, left)
  }

  /** One probe of the search below the match at m, or of an interval without one. */
  lemma RightStep(stabs: seq<Stab>, kind: nat, lo: int, hi: int, address: nat, addr: nat, l: int, r: int, left: int,
                  wrapped: bool, m: int)
    requires 0 <= lo <= l <= r <= hi < |stabs| && Ordered(stabs, kind, lo, hi)
    requires Searching(stabs, kind, lo, hi, address, addr, l, r, left, wrapped)
    requires m == LastMatch(stabs, kind, l, (l + r) / 2) && (m < l || stabs[m].value < addr)
    ensures Searching(stabs, kind, lo, hi, address, addr, (l + r) / 2 + 1, r, if m < l then left else m, wrapped)
  {
    hide Narrowed, Tracks, Ordered;
    if wrapped {
      WrappedProbe(stabs, kind, lo, hi, address, l, r, left, m);
    } else if m < l {
      SkipKeeps(stabs, kind, lo, hi, address, addr, l, r, left, (l + r) / 2);
      SkipTracks(stabs, kind, lo, hi, address, addr, l, r, left);
    } else {
      BelowKeeps(stabs, kind, lo, hi, address, addr, l, r, left, m, (l + r) / 2);
      BelowTracks(stabs, kind, lo, hi, address, addr, l, r, left, m);
    }
  }

  lemma LeftStep(stabs: seq<Stab>, kind: nat, lo: int, hi: int, address: nat, addr: nat, l: int, r: int, left: int,
                 wrapped: bool, m: int)
    requires 0 <= lo <= l <= r <= hi < |stabs| && Ordered(stabs, kind, lo, hi)
    requires Searching(stabs, kind, lo, hi, address, addr, l, r, left, wrapped)
    requires m == LastMatch(stabs, kind, l, (l + r) / 2) && m >= l && stabs[m].value > addr
    ensures Searching(stabs, kind, lo, hi, address, addr, l, m - 1, left, wrapped)
  {
    hide Tracks, Ordered;
    if !wrapped {
      AboveKeeps(stabs, kind, lo, hi, address, addr, l, r, left, m);
      AboveTracks(stabs, kind, lo, hi, address, addr, l, r, left, m);
    }
  }

  lemma HitStep(stabs: seq<Stab>, kind: nat, lo: int, hi: int, address: nat, addr: nat, l: int, r: int, left: int,
                wrapped: bool, m: int)
    requires 0 <= lo <= l <= r <= hi < |stabs| && Ordered(stabs, kind, lo, hi)
    requires Searching(stabs, kind, lo, hi, address, addr, l, r, left, wrapped)
    requires m == LastMatch(stabs, kind, l, (l + r) / 2) && m >= l && stabs[m].value == addr
    ensures !wrapped
    ensures Searching(stabs, kind, lo, hi, address, (addr + 1) % WORDS, m, r, m, addr + 1 == WORDS)
  {
    hide Tracks, Ordered;
    if wrapped {
      WrappedProbe(stabs, kind, lo, hi, address, l, r, left, m);
    } else {
      HitKeeps(stabs, kind, lo, hi, address, addr, l, r, left, m);
      HitTracks(stabs, kind, lo, hi, address, addr, l, r, left, m);
      if addr + 1 == WORDS {
        WrapStarts(stabs, kind, lo, hi, address, l, r, left, m);
      }
    }
  }

  lemma WrappedProbe(stabs: seq<Stab>, kind: nat, lo: int, hi: int, address: nat, l: int, r: int, left: int, m: int)
    requires 0 <= lo <= l <= r <= hi < |stabs| && Ordered(stabs, kind, lo, hi)
    requires Wrapped(stabs, kind, lo, hi, address, l, r, left) && m == LastMatch(stabs, kind, l, (l + r) / 2)
    ensures m >= l && stabs[m].value == WORDS - 1
  {
    hide AllPresent;
    assert m >= l by {
      assert Matches(stabs, kind, m + 1, (l + r) / 2, l) <==> m < l;
    }
    assert Matches(stabs, kind, lo, hi, m);
  }

  /** The end of the first loop, for ordered values, and what the second loop makes of `left`. */
  lemma SearchEnds(stabs: seq<Stab>, kind: nat, lo: int, hi: int, address: nat, addr: nat, l: int, r: int, left: int,
                   wrapped: bool)
    requires 0 <= lo <= l == r + 1 <= hi + 1 <= |stabs| && Ordered(stabs, kind, lo, hi)
    requires address < WORDS && addr < WORDS
    requires Searching(stabs, kind, lo, hi, address, addr, l, r, left, wrapped) && !NoMatch(stabs, kind, lo, hi)
    ensures NoMatch(stabs, kind, left + 1, r)
    ensures Answer(stabs, kind, lo, hi, address, if left <= r then left else r, r)
  {
    assert !Overshoots(stabs, kind, l, r, address);
    hide Overshoots;
    if wrapped {
      EmptyRange(stabs, kind, left + 1, r);
      assert Present(stabs, kind, lo, hi, address);
    } else {
      hide Ordered, Narrowed, AllAbove;
      EmptyInterval(stabs, kind, lo, hi, address, addr, r, left);
      if AllAbove(stabs, kind, lo, hi, address) {
        assert NoMatch(stabs, kind, lo, r);
      } else {
        assert left <= r;
        assert AllPresent(stabs, kind, lo, hi, address, WORDS) ==> Present(stabs, kind, lo, hi, address);
        assert !Present(stabs, kind, l, r, address + 1);
        assert stabs[left].value > address <==> Overshoots(stabs, kind, lo, hi, address);
      }
    }
  }

  lemma SearchStarts(stabs: seq<Stab>, kind: nat, lo: int, hi: int, address: nat)
    requires 0 <= lo && hi < |stabs|
    ensures Searching(stabs, kind, lo, hi, address, address, lo, hi, lo, false) && NoMatch(stabs, kind, lo, lo - 1)
  {
  }

  lemma NothingThere(stabs: seq<Stab>, kind: nat, lo: int, hi: int, address: nat)
    requires 0 <= lo && hi < |stabs| && NoMatch(stabs, kind, lo, hi)
    ensures Answer(stabs, kind, lo, hi, address, lo, lo - 1)
  {
  }

  /** Nothing is promised for values in disorder. */
  lemma AnyAnswer(stabs: seq<Stab>, kind: nat, lo: int, hi: int, address: nat)
    requires 0 <= lo && hi < |stabs| && !NoMatch(stabs, kind, lo, hi) && !Ordered(stabs, kind, lo, hi)
    ensures forall left, right :: Answer(stabs, kind, lo, hi, address, left, right)
  {
  }

  method StabBinsearch(stabs: seq<Stab>, lo: int, hi: int, kind: nat, address: Address) returns (left: int, right: int)
    requires 0 <= lo && hi < |stabs|
    ensures Answer(stabs, kind, lo, hi, address, left, right)
  {
    hide NoMatch, Searching, Ordered, Answer;
    if lo > hi + 1 {
      EmptyRange(stabs, kind, lo, hi);
    }
    left, right := lo, hi;
    var l, r, anyMatches, addr: Address := lo, hi, false, address;
    ghost var wrapped, ok := false, Ordered(stabs, kind, lo, hi) && lo <= hi + 1;
    SearchStarts(stabs, kind, lo, hi, address);
    while l <= r
      invariant lo <= l && r <= hi && r == right
      invariant if lo <= hi + 1 then l <= r + 1 else !anyMatches
      invariant !anyMatches ==> NoMatch(stabs, kind, lo, l - 1) && r == hi && left == lo
      invariant anyMatches ==> !NoMatch(stabs, kind, lo, hi)
      invariant ok ==> Searching(stabs, kind, lo, hi, address, addr, l, r, left, wrapped)
      decreases r - l, if l < |stabs| && stabs[l].kind == kind && stabs[l].value == addr then 1 else 0
    {
      var trueM := (l + r) / 2;
      var m := trueM;
      while m >= l && stabs[m].kind != kind
        invariant l - 1 <= m <= trueM && LastMatch(stabs, kind, l, m) == LastMatch(stabs, kind, l, trueM)
      {
        m := m - 1;
      }
      if m < l {
        if ok {
          RightStep(stabs, kind, lo, hi, address, addr, l, r, left, wrapped, m);
        }
        if !anyMatches {
          Join(stabs, kind, lo, l, trueM);
        }
        l := trueM + 1;
        continue;
      }
      anyMatches := true;
      MatchInRange(stabs, kind, lo, hi, m);
      if stabs[m].value < addr {
        if ok {
          RightStep(stabs, kind, lo, hi, address, addr, l, r, left, wrapped, m);
        }
        left := m;
        l := trueM + 1;
      } else if stabs[m].value > addr {
        if ok {
          LeftStep(stabs, kind, lo, hi, address, addr, l, r, left, wrapped, m);
        }
        right := m - 1;
        r := m - 1;
      } else {
        if ok {
          HitStep(stabs, kind, lo, hi, address, addr, l, r, left, wrapped, m);
        }
        wrapped := addr + 1 == WORDS;
        left := m;
        l := m;
        addr := (addr + 1) % WORDS;
      }
    }
    if !anyMatches {
      right := left - 1;
      NothingThere(stabs, kind, lo, hi, address);
    } else {
      if ok {
        SearchEnds(stabs, kind, lo, hi, address, addr, l, r, left, wrapped);
      } else {
        AnyAnswer(stabs, kind, lo, hi, address);
      }
      l := right;
      while l > left && stabs[l].kind != kind
        invariant l <= right && (left <= l || l == right)
      {
        l := l - 1;
      }
      if ok && l > left {
        NotAt(stabs, kind, left + 1, right, l);
      }
      left := l;
    }
  }

  /** The comment above the function promises the region that contains the address. With ordered values, some of them at
      most `address`, and an address from there on that is the value of no entry, the search ends there exactly if it
      does not overshoot; and it does not if no two entries are at `address` and the next address. */
  lemma BracketsExactly(stabs: seq<Stab>, kind: nat, lo: int, hi: int, address: nat, left: int, right: int)
    requires 0 <= lo && hi < |stabs| && Answer(stabs, kind, lo, hi, address, left, right)
    requires Ordered(stabs, kind, lo, hi) && !AllAbove(stabs, kind, lo, hi, address)
    requires !AllPresent(stabs, kind, lo, hi, address, WORDS)
    ensures Brackets(stabs, kind, lo, hi, address, left, right) <==> !Overshoots(stabs, kind, lo, hi, address)
    ensures Overshoots(stabs, kind, lo, hi, address) ==>
      Present(stabs, kind, lo, hi, address) && Present(stabs, kind, lo, hi, address + 1)
  {
    hide Overshoots, Region, AllAbove, Present, Ordered;
    if NoMatch(stabs, kind, lo, hi) {
      NothingAbove(stabs, kind, lo, hi, address);
    } else {
      InRegion(stabs, kind, lo, hi, address, left, right);
      MatchInRange(stabs, kind, lo, hi, left);
      if stabs[left].value > address {
        assert Present(stabs, kind, lo, hi, address);
      }
    }
  }

  lemma InRegion(stabs: seq<Stab>, kind: nat, lo: int, hi: int, address: nat, left: int, right: int)
    requires Region(stabs, kind, lo, hi, address, left, right)
    ensures Matches(stabs, kind, lo, hi, left) && lo <= left <= right
  {
  }

  /** Two entries at neighbouring addresses: looking for the first, the search ends at the second. */
  lemma NextEntryFound(kind: nat, v: nat, left: int, right: int)
    requires v + 2 < WORDS && Answer([Stab(kind, v), Stab(kind, v + 1)], kind, 0, 1, v, left, right)
    ensures Ordered([Stab(kind, v), Stab(kind, v + 1)], kind, 0, 1)
    ensures left == right == 1
  {
    var stabs := [Stab(kind, v), Stab(kind, v + 1)];
    assert Matches(stabs, kind, 0, 1, 0) && Matches(stabs, kind, 0, 1, 1);
    assert !Present(stabs, kind, 0, 1, v + 2);
    assert LastMatch(stabs, kind, 0, 0) == 0;
    assert Overshoots(stabs, kind, 0, 1, v) by {
      assert Matches(stabs, kind, 0, 1, 1) && stabs[1].value == v + 1;
    }
  }

  /** An entry at the last address there is, looked for: the search ends before it. */
  lemma LastAddressMissed(kind: nat, left: int, right: int)
    requires Answer([Stab(kind, WORDS - 1)], kind, 0, 0, WORDS - 1, left, right)
    ensures left == right == -1
  {
    var stabs := [Stab(kind, WORDS - 1)];
    assert Matches(stabs, kind, 0, 0, 0) && Present(stabs, kind, 0, 0, WORDS - 1);
  }

  /** The comment says that left > right reports an address outside every region. It reports a range without entries of
      the type; for an address below the first entry it does not. */
  lemma MissReported(stabs: seq<Stab>, kind: nat, lo: int, hi: int, address: nat, left: int, right: int)
    requires 0 <= lo && hi < |stabs|
    requires Ordered(stabs, kind, lo, hi) && Answer(stabs, kind, lo, hi, address, left, right)
    ensures left > right <==> NoMatch(stabs, kind, lo, hi)
    ensures (left > right <==> AllAbove(stabs, kind, lo, hi, address))
        <==> NoMatch(stabs, kind, lo, hi) || !AllAbove(stabs, kind, lo, hi, address)
  {
    hide Ordered, Overshoots, AllPresent;
    if NoMatch(stabs, kind, lo, hi) {
      NothingAbove(stabs, kind, lo, hi, address);
    }
  }

  /** A table with one entry that lies above the address: a miss that is not reported. */
  lemma MissUnreported(kind: nat, value: nat, address: nat, left: int, right: int)
    requires address < value < WORDS
    requires Answer([Stab(kind, value)], kind, 0, 0, address, left, right)
    ensures AllAbove([Stab(kind, value)], kind, 0, 0, address)
    ensures left == right == -1
  {
    assert Matches([Stab(kind, value)], kind, 0, 0, 0);
  }
}
