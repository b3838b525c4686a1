/** Relative paths of the sync root and the orders the program keeps them in. */
module Paths {

  /** A relative path as the sequence of its components; `[]` is the sync root. */
  type Path = seq<string>

  /** `Path::starts_with`: component-wise, so `a/bc` is not under `a/b`. */
  predicate StartsWith(p: Path, prefix: Path) {
    prefix <= p
  }

  /** `p` lies strictly below the directory `dir`. */
  predicate Below(p: Path, dir: Path) {
    dir < p
  }

  predicate Comparable(a: Path, b: Path) {
    a <= b || b <= a
  }

  lemma StartsWithTransitive(q: Path, k: Path, t: Path)
    requires StartsWith(q, k) && StartsWith(k, t)
    ensures StartsWith(q, t) && (q != t ==> Below(q, t))
  {
    assert t == q[..|t|];
  }

  /** Two prefixes of one path: one is a prefix of the other. */
  lemma PrefixesComparable(a: Path, b: Path, j: Path)
    requires StartsWith(j, a) && StartsWith(j, b)
    ensures Comparable(a, b)
  {
    if |a| <= |b| {
      assert a == b[..|a|];
    } else {
      assert b == a[..|b|];
    }
  }

  // ---- Lexicographic order, used at two levels: characters and components ----

  predicate LexLe<T(==)>(lt: (T, T) -> bool, a: seq<T>, b: seq<T>) {
    a == [] || (b != [] && (lt(a[0], b[0]) || (a[0] == b[0] && LexLe(lt, a[1..], b[1..]))))
  }

  ghost predicate StrictTotalOrder<T(!new)>(lt: (T, T) -> bool) {
    && (forall x :: !lt(x, x))
    && (forall x, y :: x != y ==> lt(x, y) || lt(y, x))
    && (forall x, y, z :: lt(x, y) && lt(y, z) ==> lt(x, z))
  }

  lemma {:induction false} LexTotal<T(!new)>(lt: (T, T) -> bool, a: seq<T>, b: seq<T>)
    requires StrictTotalOrder(lt)
    ensures LexLe(lt, a, b) || LexLe(lt, b, a)
  {
    if a != [] && b != [] && a[0] == b[0] {
      LexTotal(lt, a[1..], b[1..]);
    }
  }

  lemma {:induction false} LexAntisymmetric<T(!new)>(lt: (T, T) -> bool, a: seq<T>, b: seq<T>)
    requires StrictTotalOrder(lt)
    requires LexLe(lt, a, b) && LexLe(lt, b, a)
    ensures a == b
  {
    if a != [] && b != [] {
      assert a[0] == b[0];
      LexAntisymmetric(lt, a[1..], b[1..]);
      assert a == [a[0]] + a[1..] && b == [b[0]] + b[1..];
    }
  }

  lemma {:induction false} LexTransitive<T(!new)>(lt: (T, T) -> bool, a: seq<T>, b: seq<T>, c: seq<T>)
    requires StrictTotalOrder(lt)
    requires LexLe(lt, a, b) && LexLe(lt, b, c)
    ensures LexLe(lt, a, c)
  {
    if a != [] && a[0] == b[0] && b[0] == c[0] {
      LexTransitive(lt, a[1..], b[1..], c[1..]);
    }
  }

  /** A prefix sorts at or before everything it is a prefix of. */
  lemma {:induction false} LexPrefixFirst<T(!new)>(lt: (T, T) -> bool, prefix: seq<T>, k: seq<T>)
    requires prefix <= k
    ensures LexLe(lt, prefix, k)
  {
    if prefix != [] {
      LexPrefixFirst(lt, prefix[1..], k[1..]);
    }
  }

  /** The sequences with a given prefix form an interval of the order. */
  lemma {:induction false} LexPrefixConvex<T(!new)>(lt: (T, T) -> bool, prefix: seq<T>, a: seq<T>, b: seq<T>)
    requires StrictTotalOrder(lt)
    requires LexLe(lt, prefix, a) && LexLe(lt, a, b) && prefix <= b
    ensures prefix <= a
  {
    if prefix != [] {
      assert a[0] == b[0] == prefix[0];
      LexPrefixConvex(lt, prefix[1..], a[1..], b[1..]);
      assert a == [a[0]] + a[1..] && prefix == [prefix[0]] + prefix[1..];
    }
  }

  predicate CharLt(x: char, y: char) {
    x < y
  }

  predicate ComponentLt(x: string, y: string) {
    x != y && LexLe(CharLt, x, y)
  }

  /** The order of `PathBuf`: component by component. */
  predicate PathLe(a: Path, b: Path) {
    LexLe(ComponentLt, a, b)
  }

  lemma ComponentOrder()
    ensures StrictTotalOrder(ComponentLt)
  {
    assert StrictTotalOrder(CharLt);
    forall x: string, y: string | x != y
      ensures ComponentLt(x, y) || ComponentLt(y, x)
    {
      LexTotal(CharLt, x, y);
    }
    forall x: string, y: string, z: string | ComponentLt(x, y) && ComponentLt(y, z)
      ensures ComponentLt(x, z)
    {
      LexTransitive(CharLt, x, y, z);
      if x == z {
        LexAntisymmetric(CharLt, x, y);
      }
    }
  }

  predicate IsFirst(k: Path, keys: set<Path>) {
    k in keys && forall j :: j in keys ==> PathLe(k, j)
  }

  /** Every non-empty set of paths has a first element in the path order. */
  lemma {:induction false} FirstExists(keys: set<Path>) returns (k: Path)
    requires keys != {}
    ensures IsFirst(k, keys)
  {
    ComponentOrder();
    var x :| x in keys;
    if keys == {x} {
      k := x;
      LexTotal(ComponentLt, x, x);
    } else {
      var rest := keys - {x};
      assert keys == rest + {x};
      var y := FirstExists(rest);
      LexTotal(ComponentLt, x, y);
      LexTotal(ComponentLt, x, x);
      k := if PathLe(x, y) then x else y;
      forall j | j in keys
        ensures PathLe(k, j)
      {
        if j != x {
          assert j in rest && PathLe(y, j) && PathLe(k, y);
          LexTransitive(ComponentLt, k, y, j);
        }
      }
    }
  }

  /** Keys from `prefix` on, in order, stop starting with `prefix` once and for all. */
  lemma PrefixRunEnds(prefix: Path, k: Path, j: Path)
    requires PathLe(prefix, k) && PathLe(k, j) && !StartsWith(k, prefix)
    ensures !StartsWith(j, prefix)
  {
    ComponentOrder();
    if StartsWith(j, prefix) {
      LexPrefixConvex(ComponentLt, prefix, k, j);
    }
  }
}

module Wrappers {
  datatype Option<+T> = None | Some(value: T)
}
