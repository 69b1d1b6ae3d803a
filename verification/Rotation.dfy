/** Numbered archives of a log file, as both rotation schemes shift them: `.1` is the newest. */
module Rotation {
  import opened Common
  import opened Bytes

  /** A written line with its newline, and a file as the lines in it. */
  type Line = Wire
  type File = seq<Line>
  type Archives = map<nat, File>

  function Get(a: Archives, k: nat): Option<File> {
    if k in a then Some(a[k]) else None
  }

  /** The slots a rotation can fill. */
  function Reach(a: Archives): set<nat> {
    a.Keys + (set k | k in a :: k + 1) + {1}
  }

  /** The archives with these slots. */
  ghost function Tabulated(a: Archives, at: nat -> Option<File>): (b: Archives)
    requires forall k: nat :: at(k).Some? ==> k in Reach(a)
    ensures forall k: nat :: Get(b, k) == at(k)
  {
    map k: nat | k in Reach(a) && at(k).Some? :: at(k).value
  }

  lemma SameSlots(a: Archives, b: Archives)
    requires forall k :: Get(a, k) == Get(b, k)
    ensures a == b
  {
    forall k | k in a || k in b ensures k in a && k in b && a[k] == b[k] {
      assert Get(a, k) == Get(b, k);
    }
  }

  function Size(f: File): nat {
    if f == [] then 0 else Size(f[..|f| - 1]) + |f[|f| - 1]|
  }

  lemma SizeSnoc(f: File, line: Line)
    ensures Size(f + [line]) == Size(f) + |line|
  {
    assert (f + [line])[..|f|] == f;
  }

  // ---------------------------------------------------------------- the shift

  /** Slot `k` when the renames from slot `m - 1` down to slot `j + 1` are done: a slot above `j`
      holds what was one below it, and slot `m` keeps its own file if there was none below. */
  function Shifted(a: Archives, m: nat, j: nat, k: nat): Option<File>
    requires j < m
  {
    if k <= j || k > m then Get(a, k)
    else if k > j + 1 && k - 1 in a then Some(a[k - 1])
    else if k == m then Get(a, m)
    else None
  }

  /** The loop `for i in (1..m).rev()` that renames `.i` to `.(i + 1)`. */
  method ShiftUp(a: Archives, m: nat) returns (b: Archives)
    ensures m == 0 ==> b == a
    ensures m > 0 ==> forall k :: Get(b, k) == Shifted(a, m, 0, k)
  {
    b := a;
    if m == 0 {
      return;
    }
    var i := m - 1;
    while i > 0
      invariant 0 <= i < m
      invariant forall k :: Get(b, k) == Shifted(a, m, i, k)
    {
      assert Get(b, i) == Get(a, i);
      if i in b {
        ghost var before := b;
        b := b[i + 1 := b[i]] - {i};
        forall k ensures Get(b, k) == Shifted(a, m, i - 1, k) {
          assert Get(before, k) == Shifted(a, m, i, k);
        }
      } else {
        forall k ensures Get(b, k) == Shifted(a, m, i - 1, k) {
          assert Get(b, k) == Shifted(a, m, i, k);
        }
      }
      i := i - 1;
    }
  }

  // ---------------------------------------------------------------- contiguous archives

  /** The archives are exactly `.1` to `.n`. */
  ghost predicate Contiguous(a: Archives, n: nat) {
    forall k :: k in a <==> 1 <= k <= n
  }

  /** The archived lines, oldest first. */
  ghost function Archived(a: Archives, n: nat): File
    requires forall k :: 1 <= k <= n ==> k in a
  {
    if n == 0 then [] else a[n] + Archived(a, n - 1)
  }

  /** Shifting every archive up and putting `active` in slot 1 appends it to the archived lines. */
  lemma {:induction false} ArchivedShift(a: Archives, b: Archives, n: nat, active: File)
    requires forall k :: 1 <= k <= n ==> k in a
    requires forall k :: 1 <= k <= n + 1 ==> k in b
    requires forall k :: 2 <= k <= n + 1 ==> b[k] == a[k - 1]
    requires b[1] == active
    ensures Archived(b, n + 1) == Archived(a, n) + active
  {
    if n == 0 {
      assert Archived(b, 1) == b[1] + [];
    } else {
      ArchivedShift(a, b, n - 1, active);
      AppendAssociates(a[n], Archived(a, n - 1), active);
    }
  }

  /** Slot `k` after a rotation that keeps `keep` archives, of archives that are no more. */
  function ShiftedAt(a: Archives, base: File, keep: nat, k: nat): Option<File> {
    if k == 1 then Some(base) else if 2 <= k <= keep then Get(a, k - 1) else None
  }

  /** `b` is `a` with every archive shifted up, all beyond `keep` dropped, and `base` in slot 1. */
  ghost predicate Shifts(a: Archives, b: Archives, base: File, keep: nat) {
    forall k :: Get(b, k) == ShiftedAt(a, base, keep, k)
  }

  lemma SlotsAfter(a: Archives, b: Archives, n: nat, keep: nat, base: File)
    requires Contiguous(a, n) && n <= keep && keep >= 1 && Shifts(a, b, base, keep)
    ensures forall k :: k in b <==> 1 <= k <= n + 1 && k <= keep
    ensures forall k :: 2 <= k <= n + 1 && k <= keep ==> b[k] == a[k - 1]
    ensures b[1] == base
  {
    forall k ensures k in b <==> 1 <= k <= n + 1 && k <= keep {
      if k >= 0 {
        assert Get(b, k) == ShiftedAt(a, base, keep, k);
      }
    }
    forall k | 2 <= k <= n + 1 && k <= keep ensures b[k] == a[k - 1] {
      assert Get(b, k) == ShiftedAt(a, base, keep, k);
    }
    assert Get(b, 1) == Some(base);
  }

  /** What one rotation that keeps at most `keep` archives does to contiguous archives. */
  lemma RotateContiguous(a: Archives, b: Archives, n: nat, keep: nat, base: File)
    requires Contiguous(a, n) && n <= keep && keep >= 1 && Shifts(a, b, base, keep)
    ensures var n' := Min(n + 1, keep);
            && Contiguous(b, n')
            && IsSuffix(Archived(b, n'), Archived(a, n) + base)
            && (n < keep ==> Archived(b, n') == Archived(a, n) + base)
  {
    SlotsAfter(a, b, n, keep, base);
    if n < keep {
      ArchivedShift(a, b, n, base);
    } else {
      ArchivedShift(a, b, n - 1, base);
      assert Archived(a, n) + base == a[n] + (Archived(a, n - 1) + base);
      SuffixOfAppend(a[n], Archived(b, n));
    }
  }

  // ---------------------------------------------------------------- full archives

  ghost predicate AllFull(a: Archives, limit: nat) {
    forall k :: k in a ==> Size(a[k]) >= limit
  }

  lemma ShiftKeepsFull(a: Archives, b: Archives, base: File, keep: nat, limit: nat)
    requires AllFull(a, limit) && Size(base) >= limit && Shifts(a, b, base, keep)
    ensures AllFull(b, limit)
  {
    forall k | k in b ensures Size(b[k]) >= limit {
      assert Get(b, k) == ShiftedAt(a, base, keep, k);
    }
  }

  // ---------------------------------------------------------------- suffixes

  ghost predicate IsSuffix(part: File, all: File) {
    |part| <= |all| && part == all[|all| - |part|..]
  }

  lemma SuffixOfAppend(front: File, part: File)
    ensures IsSuffix(part, front + part)
  {}

  lemma SuffixTransitive(a: File, b: File, c: File)
    requires IsSuffix(a, b) && IsSuffix(b, c)
    ensures IsSuffix(a, c)
  {
    assert c == c[..|c| - |b|] + b;
  }

  lemma SuffixSnoc(part: File, all: File, line: Line)
    requires IsSuffix(part, all)
    ensures IsSuffix(part + [line], all + [line])
  {}
}
