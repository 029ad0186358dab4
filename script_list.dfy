/** The `List` script module that the player loads into its embedded interpreter (start.go,
    `loadModules`): three accumulator loops over a script list. Script values are modelled as
    values of a type parameter and script functions as total Dafny functions. */
module ScriptList {
  import opened Sequences

  /** `List.collect(l, f)`: `f(x)` for each `x` of `l`, in order. */
  method Collect<T, U>(l: seq<T>, f: T -> U) returns (result: seq<U>)
    ensures |result| == |l|
    ensures forall k :: 0 <= k < |l| ==> result[k] == f(l[k])
  {
    result := [];
    for i := 0 to |l|
      invariant |result| == i
      invariant forall k :: 0 <= k < i ==> result[k] == f(l[k])
    {
      result := result + [f(l[i])];
    }
  }

  /** `List.filter(l, f)`: the elements `x` of `l` with `f(x)` true, in their original order. */
  method Filter<T>(l: seq<T>, f: T -> bool) returns (result: seq<T>)
    ensures result == Kept(l, f)
    ensures forall x :: x in result <==> x in l && f(x)
  {
    result := [];
    for i := 0 to |l|
      invariant result == Kept(l[..i], f)
    {
      assert l[..i + 1] == l[..i] + [l[i]];
      KeptAppend(l[..i], [l[i]], f);
      if f(l[i]) {
        result := result + [l[i]];
      }
    }
    assert l[..|l|] == l;
    forall x ensures x in result <==> x in l && f(x) {
      KeptMembers(l, f, x);
    }
  }

  /** `List.reduce(l, f, acc)`: the left fold of `f` over `l` starting from `acc`. */
  method Reduce<A, T>(l: seq<T>, f: (A, T) -> A, acc: A) returns (r: A)
    ensures r == FoldLeft(f, acc, l)
  {
    r := acc;
    for i := 0 to |l|
      invariant r == FoldLeft(f, acc, l[..i])
    {
      assert l[..i + 1] == l[..i] + [l[i]];
      FoldLeftAppend(f, acc, l[..i], [l[i]]);
      r := f(r, l[i]);
    }
    assert l[..|l|] == l;
  }
}
