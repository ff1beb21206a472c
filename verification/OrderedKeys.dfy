/** The iteration order of the ordered maps that the node keeps its state in. */
module OrderedKeys {
  import opened Options

  /** The keys in `[lo, hi)` in ascending order: what walking a range of an ordered map yields. */
  function Ascending(keys: set<nat>, lo: nat, hi: nat): (s: seq<nat>)
    ensures forall i :: 0 <= i < |s| ==> s[i] in keys && lo <= s[i] < hi
    ensures forall i, j :: 0 <= i < j < |s| ==> s[i] < s[j]
    ensures forall k :: k in keys && lo <= k < hi ==> k in s
    decreases hi
  {
    if hi <= lo then []
    else
      var init := Ascending(keys, lo, hi - 1);
      if hi - 1 in keys then init + [hi - 1] else init
  }

  /** An ascending sequence is determined by its elements. */
  lemma {:induction false} AscendingUnique(a: seq<nat>, b: seq<nat>)
    requires forall i, j :: 0 <= i < j < |a| ==> a[i] < a[j]
    requires forall i, j :: 0 <= i < j < |b| ==> b[i] < b[j]
    requires forall k :: k in a <==> k in b
    ensures a == b
  {
    assert |a| == 0 || a[|a| - 1] in b;
    assert |b| == 0 || b[|b| - 1] in a;
    if a != [] && b != [] {
      var m, n := |a| - 1, |b| - 1;
      assert a[m] in b && b[n] in a;
      assert a[m] == b[n];
      forall k ensures k in a[..m] <==> k in b[..n] {
        assert k in a[..m] ==> k in a && k != a[m];
        assert k in b[..n] ==> k in b && k != b[n];
      }
      AscendingUnique(a[..m], b[..n]);
      assert a == a[..m] + [a[m]] && b == b[..n] + [b[n]];
    }
  }

  ghost function Elements<T>(s: seq<T>): set<T> {
    set x | x in s
  }

  /** A range in which no key is missing is walked one by one. */
  lemma {:induction false} AscendingFull(keys: set<nat>, lo: nat, hi: nat)
    requires lo <= hi
    requires forall k :: lo <= k < hi ==> k in keys
    ensures |Ascending(keys, lo, hi)| == hi - lo
    ensures forall i :: 0 <= i < hi - lo ==> Ascending(keys, lo, hi)[i] == lo + i
    decreases hi
  {
    if lo < hi {
      AscendingFull(keys, lo, hi - 1);
    }
  }

  /** The greatest key in `[lo, hi)`, if there is one. */
  function MaxInRange(keys: set<nat>, lo: nat, hi: nat): (m: Option<nat>)
    ensures m.None? ==> forall k :: k in keys ==> !(lo <= k < hi)
    ensures m.Some? ==> m.value in keys && lo <= m.value < hi
    ensures m.Some? ==> forall k :: k in keys && lo <= k < hi ==> k <= m.value
  {
    var s := Ascending(keys, lo, hi);
    if s == [] then None else Some(s[|s| - 1])
  }

  /** The greatest key. */
  function MaxKey(keys: set<nat>): (m: nat)
    requires keys != {}
    ensures m in keys
    ensures forall k :: k in keys ==> k <= m
  {
    MaxExists(keys);
    var m :| m in keys && forall k :: k in keys ==> k <= m;
    m
  }

  lemma {:induction false} MaxExists(keys: set<nat>)
    requires keys != {}
    ensures exists m :: m in keys && forall k :: k in keys ==> k <= m
  {
    var m := Greatest(keys);
  }

  lemma {:induction false} Greatest(keys: set<nat>) returns (m: nat)
    requires keys != {}
    ensures m in keys && forall k :: k in keys ==> k <= m
  {
    m :| m in keys;
    var rest := keys - {m};
    if rest != {} {
      var r := Greatest(rest);
      assert keys == rest + {m};
      m := if m < r then r else m;
    } else {
      assert keys == {m};
    }
  }
}
