/** Strict total orders and Python's comparison of sequences (strings and tuples). */
module Orders {

  /** `lt` is a strict total order: irreflexive, transitive, and any two distinct values compare. */
  ghost predicate StrictTotalOrder<T(!new)>(lt: (T, T) -> bool) {
    && (forall x :: !lt(x, x))
    && (forall x, y, z :: lt(x, y) && lt(y, z) ==> lt(x, z))
    && (forall x, y :: x != y ==> lt(x, y) || lt(y, x))
  }

  /** Python's `<` on two strings or two tuples: the first position where the
      elements differ decides; when one is a prefix of the other, the shorter is smaller. */
  function LexLt<T(==)>(a: seq<T>, b: seq<T>, lt: (T, T) -> bool): bool
    decreases |a|
  {
    if |a| == 0 then |b| != 0
    else if |b| == 0 then false
    else if a[0] != b[0] then lt(a[0], b[0])
    else LexLt(a[1..], b[1..], lt)
  }

  lemma {:induction false} LexIrreflexive<T>(a: seq<T>, lt: (T, T) -> bool)
    ensures !LexLt(a, a, lt)
  {
    if |a| != 0 {
      LexIrreflexive(a[1..], lt);
    }
  }

  lemma {:induction false} LexTransitive<T(!new)>(a: seq<T>, b: seq<T>, c: seq<T>, lt: (T, T) -> bool)
    requires StrictTotalOrder(lt)
    requires LexLt(a, b, lt) && LexLt(b, c, lt)
    ensures LexLt(a, c, lt)
  {
    if |a| != 0 && |b| != 0 && |c| != 0 && a[0] == b[0] && b[0] == c[0] {
      LexTransitive(a[1..], b[1..], c[1..], lt);
    }
  }

  lemma {:induction false} LexConnected<T(!new)>(a: seq<T>, b: seq<T>, lt: (T, T) -> bool)
    requires StrictTotalOrder(lt)
    requires a != b
    ensures LexLt(a, b, lt) || LexLt(b, a, lt)
  {
    if |a| != 0 && |b| != 0 && a[0] == b[0] {
      assert a == [a[0]] + a[1..] && b == [b[0]] + b[1..];
      LexConnected(a[1..], b[1..], lt);
    }
  }

  /** The lexicographic order over a strict total order is again a strict total order. */
  lemma LexStrictTotal<T(!new)>(lt: (T, T) -> bool)
    requires StrictTotalOrder(lt)
    ensures StrictTotalOrder((a: seq<T>, b: seq<T>) => LexLt(a, b, lt))
  {
    forall a: seq<T> ensures !LexLt(a, a, lt) {
      LexIrreflexive(a, lt);
    }
    forall a: seq<T>, b: seq<T>, c: seq<T> | LexLt(a, b, lt) && LexLt(b, c, lt)
      ensures LexLt(a, c, lt)
    {
      LexTransitive(a, b, c, lt);
    }
    forall a: seq<T>, b: seq<T> | a != b ensures LexLt(a, b, lt) || LexLt(b, a, lt) {
      LexConnected(a, b, lt);
    }
  }

  function CharLess(x: char, y: char): bool { x < y }

  function IntLess(x: int, y: int): bool { x < y }

  function NatLess(x: nat, y: nat): bool { x < y }

  /** Python's string comparison: code point by code point. */
  function StrLt(a: string, b: string): bool { LexLt(a, b, CharLess) }

  /** Python's comparison of two tuples of integers. */
  function IntsLt(a: seq<int>, b: seq<int>): bool { LexLt(a, b, IntLess) }

  lemma StrLtStrictTotal()
    ensures StrictTotalOrder(StrLt)
  {
    assert StrictTotalOrder(CharLess);
    LexStrictTotal(CharLess);
    var lex := (a: string, b: string) => LexLt(a, b, CharLess);
    assert forall a, b :: StrLt(a, b) == lex(a, b);
  }

  lemma IntsLtStrictTotal()
    ensures StrictTotalOrder(IntsLt)
  {
    assert StrictTotalOrder(IntLess);
    LexStrictTotal(IntLess);
    var lex := (a: seq<int>, b: seq<int>) => LexLt(a, b, IntLess);
    assert forall a, b :: IntsLt(a, b) == lex(a, b);
  }

  lemma NatLessStrictTotal()
    ensures StrictTotalOrder(NatLess)
  {
  }
}
