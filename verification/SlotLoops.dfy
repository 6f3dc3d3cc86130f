/** The element-by-element loops over the fixed slot arrays of a node. */
module SlotLoops {

  /** for (i = n - 1; i >= from; i--) s[i + 1] = s[i]; */
  method ShiftUp<T>(s: seq<T>, from: nat, n: nat) returns (r: seq<T>)
    requires from <= n < |s|
    ensures |r| == |s|
    ensures forall k {:trigger r[k]} | 0 <= k < |s| :: r[k] == if from < k <= n then s[k - 1] else s[k]
  {
    r := s;
    var i := n;
    while i > from
      invariant from <= i <= n && |r| == |s|
      invariant forall k {:trigger r[k]} | 0 <= k < |s| :: r[k] == if i < k <= n then s[k - 1] else s[k]
    {
      i := i - 1;
      r := r[i + 1 := r[i]];
    }
  }

  /** for (i = from; i < n; i++) s[i - 1] = s[i]; */
  method ShiftDown<T>(s: seq<T>, from: nat, n: nat) returns (r: seq<T>)
    requires 1 <= from && n <= |s|
    ensures |r| == |s|
    ensures forall k {:trigger r[k]} | 0 <= k < |s| :: r[k] == if from - 1 <= k < n - 1 then s[k + 1] else s[k]
  {
    r := s;
    var i := from;
    while i < n
      invariant from <= i && (i <= n || i == from) && |r| == |s|
      invariant forall k {:trigger r[k]} | 0 <= k < |s| :: r[k] == if from - 1 <= k < i - 1 then s[k + 1] else s[k]
    {
      r := r[i - 1 := r[i]];
      i := i + 1;
    }
  }

  /** for (i = 0; i < n; i++) dst[at + i] = src[from + i]; */
  method CopyRun<T>(dst: seq<T>, at: nat, src: seq<T>, from: nat, n: nat) returns (r: seq<T>)
    requires at + n <= |dst| && from + n <= |src|
    ensures |r| == |dst|
    ensures forall k {:trigger r[k]} | 0 <= k < |dst| ::
              r[k] == if at <= k < at + n then src[from + (k - at)] else dst[k]
  {
    r := dst;
    for i := 0 to n
      invariant |r| == |dst|
      invariant forall k {:trigger r[k]} | 0 <= k < |dst| ::
                  r[k] == if at <= k < at + i then src[from + (k - at)] else dst[k]
    {
      r := r[at + i := src[from + i]];
    }
  }
}
