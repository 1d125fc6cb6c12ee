/** Where files are put: FilePath and its reading back. */
module Paths {
  import opened Basics

  // ---- Zero-padded decimals ------------------------------------------------------------------------

  function Digit(d: nat): char
    requires d < 10
  {
    '0' + d as char
  }

  function Decimal(n: nat): string { if n < 10 then [Digit(n)] else Decimal(n / 10) + [Digit(n % 10)] }

  function Zeros(k: nat): string { seq(k, _ => '0') }

  /** %0wd */
  function Pad(w: nat, n: nat): string {
    var s := Decimal(n);
    if |s| < w then Zeros(w - |s|) + s else s
  }

  predicate Digits(s: string) { forall i :: 0 <= i < |s| ==> '0' <= s[i] <= '9' }

  function Parse(s: string): nat
    requires Digits(s)
  {
    if s == "" then 0 else 10 * Parse(s[..|s| - 1]) + (s[|s| - 1] - '0') as nat
  }

  lemma {:induction false} DecimalParses(n: nat)
    ensures Digits(Decimal(n)) && Parse(Decimal(n)) == n
    decreases n
  {
    if n >= 10 {
      DecimalParses(n / 10);
      assert Decimal(n)[..|Decimal(n)| - 1] == Decimal(n / 10);
    }
  }

  lemma {:induction false} ZerosParse(k: nat, s: string)
    requires Digits(s)
    ensures Digits(Zeros(k) + s) && Parse(Zeros(k) + s) == Parse(s)
    decreases k + |s|
  {
    if s != "" {
      ZerosParse(k, s[..|s| - 1]);
      assert (Zeros(k) + s)[..k + |s| - 1] == Zeros(k) + s[..|s| - 1];
    } else if k > 0 {
      ZerosParse(k - 1, "");
      assert (Zeros(k) + s)[..k - 1] == Zeros(k - 1) + "";
    } else {
      assert Zeros(k) + s == s;
    }
  }

  lemma PadParses(w: nat, n: nat)
    ensures Digits(Pad(w, n)) && Parse(Pad(w, n)) == n
  {
    DecimalParses(n);
    var s := Decimal(n);
    if |s| < w {
      ZerosParse(w - |s|, s);
    }
  }

  function Pow10(w: nat): nat { if w == 0 then 1 else 10 * Pow10(w - 1) }

  lemma {:induction false} DecimalFits(n: nat, w: nat)
    requires w > 0 && n < Pow10(w)
    ensures |Decimal(n)| <= w
    decreases w
  {
    if n >= 10 {
      DecimalFits(n / 10, w - 1);
    }
  }

  /** Numbers that fit are padded to the width exactly; longer ones are written in full. */
  lemma PadWidth(w: nat, n: nat)
    requires w > 0
    ensures |Pad(w, n)| >= w && (n < Pow10(w) ==> |Pad(w, n)| == w) && (|Pad(w, n)| > w ==> Pad(w, n) == Decimal(n))
  {
    if n < Pow10(w) {
      DecimalFits(n, w);
    }
  }

  // ---- Paths ---------------------------------------------------------------------------------------

  /** The directory of a file; `root` is the joined and cleaned host directory. */
  function LeafDir(root: string, index: nat): string {
    root + "/" + Pad(4, index / 10000) + "/" + Pad(2, index / 100 % 100)
  }

  function FilePath(root: string, index: nat): string { LeafDir(root, index) + "/" + Pad(8, index) }

  /** Below the host directory come the ten-thousands in four digits, the hundreds in two and the index in eight, each
      longer only where the number is. */
  lemma PathParts(root: string, index: nat) returns (shard1: string, shard2: string, name: string)
    ensures FilePath(root, index) == root + "/" + shard1 + "/" + shard2 + "/" + name
    ensures Digits(shard1) && Parse(shard1) == index / 10000
    ensures Digits(shard2) && Parse(shard2) == index / 100 % 100
    ensures Digits(name) && Parse(name) == index
    ensures |shard1| >= 4 && (index < 1_0000_0000 ==> |shard1| == 4) && |shard2| == 2
    ensures |name| >= 8 && (index < 1_0000_0000 ==> |name| == 8)
  {
    shard1, shard2, name := Pad(4, index / 10000), Pad(2, index / 100 % 100), Pad(8, index);
    PadParses(4, index / 10000);
    PadParses(2, index / 100 % 100);
    PadParses(8, index);
    assert Pow10(2) == 100 && Pow10(4) == 1_0000;
    assert Pow10(8) == 1_0000_0000 by {
      assert Pow10(6) == 100_0000;
    }
    PadWidth(4, index / 10000);
    PadWidth(2, index / 100 % 100);
    PadWidth(8, index);
  }

  /** What follows the last slash. */
  function Base(p: string): string {
    if p == "" || p[|p| - 1] == '/' then "" else Base(p[..|p| - 1]) + [p[|p| - 1]]
  }

  lemma {:induction false} BaseOf(dir: string, name: string)
    requires Digits(name)
    ensures Base(dir + "/" + name) == name
    decreases |name|
  {
    var p := dir + "/" + name;
    if name != "" {
      BaseOf(dir, name[..|name| - 1]);
      assert p[..|p| - 1] == dir + "/" + name[..|name| - 1];
    }
  }

  /** Splitting at the last slash is unambiguous. */
  lemma SplitUnique(a: string, m: string, b: string, n: string)
    requires Digits(m) && Digits(n) && a + "/" + m == b + "/" + n
    ensures a == b && m == n
  {
    BaseOf(a, m);
    BaseOf(b, n);
    assert |a| == |b|;
    assert a == (a + "/" + m)[..|a|];
    assert b == (b + "/" + n)[..|b|];
  }

  /** The index can be read back from a path. */
  lemma IndexReadBack(root: string, index: nat)
    ensures Digits(Base(FilePath(root, index))) && Parse(Base(FilePath(root, index))) == index
  {
    PadParses(8, index);
    BaseOf(LeafDir(root, index), Pad(8, index));
  }

  lemma SameRoot(root: string, other: string, i: nat)
    requires FilePath(root, i) == FilePath(other, i)
    ensures root == other
  {
    PadParses(8, i);
    PadParses(2, i / 100 % 100);
    PadParses(4, i / 10000);
    SplitUnique(LeafDir(root, i), Pad(8, i), LeafDir(other, i), Pad(8, i));
    SplitUnique(root + "/" + Pad(4, i / 10000), Pad(2, i / 100 % 100),
                other + "/" + Pad(4, i / 10000), Pad(2, i / 100 % 100));
    SplitUnique(root, Pad(4, i / 10000), other, Pad(4, i / 10000));
  }

  /** No two files share a path, past the padding widths too. */
  lemma PathsInjective(root: string, i: nat, other: string, j: nat)
    ensures FilePath(root, i) == FilePath(other, j) <==> root == other && i == j
  {
    if FilePath(root, i) == FilePath(other, j) {
      IndexReadBack(root, i);
      IndexReadBack(other, j);
      SameRoot(root, other, i);
    }
  }

  /** Two files share a directory exactly when their indices agree but for the last two digits. */
  lemma SameLeafIff(root: string, i: nat, j: nat)
    ensures LeafDir(root, i) == LeafDir(root, j) <==> i / 100 == j / 100
  {
    ShardsOf(i);
    ShardsOf(j);
    if LeafDir(root, i) == LeafDir(root, j) {
      PadParses(2, i / 100 % 100);
      PadParses(2, j / 100 % 100);
      SplitUnique(root + "/" + Pad(4, i / 10000), Pad(2, i / 100 % 100),
                  root + "/" + Pad(4, j / 10000), Pad(2, j / 100 % 100));
      PadParses(4, i / 10000);
      PadParses(4, j / 10000);
      SplitUnique(root, Pad(4, i / 10000), root, Pad(4, j / 10000));
    }
  }

  lemma ShardsOf(i: nat)
    ensures i / 100 == 100 * (i / 10000) + i / 100 % 100
  {}

  /** A directory holds at most a hundred files. */
  lemma LeafHoldsHundred(root: string, indices: seq<nat>)
    requires Distinct(indices)
    requires forall a, b :: 0 <= a < |indices| && 0 <= b < |indices|
                            ==> LeafDir(root, indices[a]) == LeafDir(root, indices[b])
    ensures |indices| <= 100
  {
    if indices != [] {
      var low := 100 * (indices[0] / 100);
      forall a | 0 <= a < |indices|
        ensures low <= indices[a] < low + 100
      {
        SameLeafIff(root, indices[a], indices[0]);
      }
      RangeHolds(indices, low, 100);
    }
  }

  lemma {:induction false} RangeHolds(s: seq<nat>, low: int, n: nat)
    requires Distinct(s) && forall a :: 0 <= a < |s| ==> low <= s[a] < low + n
    ensures |s| <= n
    decreases n
  {
    assert s == [] || low <= s[0] < low + n;
    if n > 0 {
      if k :| 0 <= k < |s| && s[k] == low {
        RangeHolds(s[..k] + s[k + 1..], low + 1, n - 1);
      } else {
        RangeHolds(s, low + 1, n - 1);
      }
    }
  }
}
