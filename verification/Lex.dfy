/** Lexicographic order over sequences: Go's and SQL's string order, and the order
    of composite keys, are both instances of it. */
module Lex {

  ghost predicate StrictTotal<T(!new)>(lt: (T, T) -> bool) {
    && (forall a :: !lt(a, a))
    && (forall a, b :: lt(a, b) || a == b || lt(b, a))
    && (forall a, b, c :: lt(a, b) && lt(b, c) ==> lt(a, c))
  }

  predicate Less<T(==)>(lt: (T, T) -> bool, a: seq<T>, b: seq<T>) {
    if b == [] then false
    else if a == [] then true
    else if a[0] == b[0] then Less(lt, a[1..], b[1..])
    else lt(a[0], b[0])
  }

  lemma {:induction false} LessIrreflexive<T(!new)>(lt: (T, T) -> bool, a: seq<T>)
    ensures !Less(lt, a, a)
  {
    if a != [] { LessIrreflexive(lt, a[1..]); }
  }

  lemma {:induction false} LessTotal<T(!new)>(lt: (T, T) -> bool, a: seq<T>, b: seq<T>)
    requires StrictTotal(lt)
    ensures Less(lt, a, b) || a == b || Less(lt, b, a)
  {
    if a != [] && b != [] && a[0] == b[0] {
      LessTotal(lt, a[1..], b[1..]);
      assert a == [a[0]] + a[1..] && b == [b[0]] + b[1..];
    }
  }

  lemma {:induction false} LessTransitive<T(!new)>(lt: (T, T) -> bool, a: seq<T>, b: seq<T>, c: seq<T>)
    requires StrictTotal(lt) && Less(lt, a, b) && Less(lt, b, c)
    ensures Less(lt, a, c)
  {
    if a != [] && a[0] == b[0] == c[0] { LessTransitive(lt, a[1..], b[1..], c[1..]); }
  }

  predicate CharLess(a: char, b: char) { a < b }

  /** The order of strings by code unit. */
  predicate StringLess(a: string, b: string) { Less(CharLess, a, b) }

  lemma StringLessStrictTotal()
    ensures StrictTotal(StringLess)
  {
    assert StrictTotal(CharLess);
    forall a: string ensures !StringLess(a, a) { LessIrreflexive(CharLess, a); }
    forall a: string, b: string ensures StringLess(a, b) || a == b || StringLess(b, a) { LessTotal(CharLess, a, b); }
    forall a: string, b: string, c: string | StringLess(a, b) && StringLess(b, c) ensures StringLess(a, c) {
      LessTransitive(CharLess, a, b, c);
    }
  }

  /** The strings agree before position i and have a smaller and a larger character there. */
  predicate SmallerAt(a: string, b: string, i: nat) { i < |a| && i < |b| && a[..i] == b[..i] && a[i] < b[i] }

  /** A string is less than another when it is a proper prefix of it, or smaller at the first difference. */
  lemma {:induction false} StringLessIff(a: string, b: string)
    ensures StringLess(a, b) <==> (|a| < |b| && b[..|a|] == a) || exists i: nat :: SmallerAt(a, b, i)
  {
    if a != [] && b != [] && a[0] == b[0] {
      StringLessIff(a[1..], b[1..]);
      assert |a| < |b| ==> b[..|a|] == [b[0]] + b[1..][..|a| - 1] && a == [a[0]] + a[1..];
      forall i: nat | SmallerAt(a, b, i) ensures i > 0 && SmallerAt(a[1..], b[1..], i - 1) {
        assert a[1..][..i - 1] == a[..i][1..] && b[1..][..i - 1] == b[..i][1..];
      }
      forall i: nat | SmallerAt(a[1..], b[1..], i) ensures SmallerAt(a, b, i + 1) {
        assert a[..i + 1] == [a[0]] + a[1..][..i] && b[..i + 1] == [b[0]] + b[1..][..i];
      }
    } else if a != [] && b != [] {
      if a[0] < b[0] { assert SmallerAt(a, b, 0); }
      forall i: nat | 0 < i < |a| && i < |b| ensures a[..i] != b[..i] {
        assert a[..i][0] == a[0] && b[..i][0] == b[0];
      }
    }
  }
}
