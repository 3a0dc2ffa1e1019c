/** Strings in lexicographic order, and lists of them sorted. */
module TextOrder {
  import opened Wrappers

  predicate Less(a: string, b: string) {
    b != "" && (a == "" || a[0] < b[0] || (a[0] == b[0] && Less(a[1..], b[1..])))
  }

  lemma {:induction false} LessTotal(a: string, b: string)
    ensures Less(a, b) || a == b || Less(b, a)
  {
    if a != "" && b != "" {
      LessTotal(a[1..], b[1..]);
      assert a == [a[0]] + a[1..] && b == [b[0]] + b[1..];
    }
  }

  lemma {:induction false} LessTransitive(a: string, b: string, c: string)
    requires Less(a, b) && Less(b, c)
    ensures Less(a, c)
  {
    if a != "" && a[0] == b[0] && b[0] == c[0] { LessTransitive(a[1..], b[1..], c[1..]); }
  }

  lemma {:induction false} LessIrreflexive(a: string)
    ensures !Less(a, a)
  {
    if a != "" { LessIrreflexive(a[1..]); }
  }

  // Up to some place the two are the same; there the first one ends, or has the lesser character.
  lemma {:induction false} LessMeans(a: string, b: string)
    ensures Less(a, b) <==> exists n :: 0 <= n <= |a| && n < |b| && a[..n] == b[..n] && (n < |a| ==> a[n] < b[n])
  {
    if Less(a, b) {
      if a == "" || a[0] < b[0] {
        assert a[..0] == b[..0];
      } else {
        LessMeans(a[1..], b[1..]);
        var n :| 0 <= n <= |a[1..]| && n < |b[1..]| && a[1..][..n] == b[1..][..n] && (n < |a[1..]| ==> a[1..][n] < b[1..][n]);
        assert a[..n + 1] == [a[0]] + a[1..][..n] && b[..n + 1] == [b[0]] + b[1..][..n];
      }
    }
    if n :| 0 <= n <= |a| && n < |b| && a[..n] == b[..n] && (n < |a| ==> a[n] < b[n]) {
      if n > 0 {
        assert a[..n][0] == b[..n][0];
        assert a[1..][..n - 1] == a[..n][1..] && b[1..][..n - 1] == b[..n][1..];
        LessMeans(a[1..], b[1..]);
      }
    }
  }

  // -- Sorting -------------------------------------------------------------------------------

  predicate Ascending(keys: seq<string>) { forall i, j :: 0 <= i < j < |keys| ==> Less(keys[i], keys[j]) }

  predicate Distinct<T(==)>(s: seq<T>) { forall i, j :: 0 <= i < j < |s| ==> s[i] != s[j] }

  // The index at which a new key goes into an ascending list.
  method Place(keys: seq<string>, key: string) returns (i: nat)
    requires Ascending(keys) && key !in keys
    ensures i <= |keys| && Ascending(keys[..i] + [key] + keys[i..])
  {
    i := 0;
    while i < |keys| && Less(keys[i], key)
      invariant 0 <= i <= |keys| && forall k :: 0 <= k < i ==> Less(keys[k], key)
    {
      i := i + 1;
    }
    if i < |keys| {
      LessTotal(keys[i], key);
      forall k | i <= k < |keys| ensures Less(key, keys[k]) {
        if k > i { LessTransitive(key, keys[i], keys[k]); }
      }
    }
  }

  // The same keys in ascending order; None if one of them repeats or is empty.
  method SortDistinct(keys: seq<string>) returns (sorted: Option<seq<string>>)
    ensures sorted.Some? <==> Distinct(keys) && "" !in keys
    ensures sorted.Some? ==> Orders(keys, sorted.value)
  {
    var result: seq<string> := [];
    var i := 0;
    while i < |keys|
      invariant 0 <= i <= |keys| && Distinct(keys[..i]) && "" !in keys[..i] && Orders(keys[..i], result)
    {
      assert keys[..i + 1] == keys[..i] + [keys[i]];
      if keys[i] == "" { return None; }
      if keys[i] in result {
        assert keys[i] in keys[..i];
        return None;
      }
      var place := Place(result, keys[i]);
      result := result[..place] + [keys[i]] + result[place..];
      i := i + 1;
    }
    assert keys[..|keys|] == keys;
    sorted := Some(result);
  }

  // sorted is the list of these keys in ascending order.
  ghost predicate Orders(keys: seq<string>, sorted: seq<string>) {
    Ascending(sorted) && |sorted| == |keys| && forall key :: key in sorted <==> key in keys
  }

  lemma AscendingFirst(keys: seq<string>)
    requires Ascending(keys) && keys != []
    ensures forall key :: key in keys[1..] <==> key in keys && key != keys[0]
    ensures forall key :: key in keys ==> key == keys[0] || Less(keys[0], key)
  {
    LessIrreflexive(keys[0]);
    assert keys == [keys[0]] + keys[1..];
  }

  // The same keys in any order are the same list in ascending order.
  lemma {:induction false} AscendingUnique(a: seq<string>, b: seq<string>)
    requires Ascending(a) && Ascending(b) && forall key :: key in a <==> key in b
    ensures a == b
  {
    assert a != [] ==> a[0] in a;
    assert b != [] ==> b[0] in b;
    if a != [] && b != [] {
      AscendingFirst(a);
      AscendingFirst(b);
      if a[0] != b[0] {
        LessTransitive(a[0], b[0], a[0]);
        LessIrreflexive(a[0]);
      }
      AscendingUnique(a[1..], b[1..]);
    }
  }
}
