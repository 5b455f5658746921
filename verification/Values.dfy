/** Values shared by every module: optional and failing results, and the dynamic
    values (Go's `any`) that GraphQL arguments, JWT claims and table cells hold. */
module Values {

  datatype Option<+T> = None | Some(value: T) {
    predicate IsFailure() { None? }

    function PropagateFailure<U>(): Option<U>
      requires None?
    {
      None
    }

    function Extract(): T
      requires Some?
    {
      value
    }
  }

  datatype Result<+T> = Ok(value: T) | Err(reason: string)

  datatype Value =
    | Null
    | Bool(b: bool)
    | Int(n: int)
    | Float(bits: int)   // an IEEE double, by its bits
    | Str(s: string)
    | List(items: seq<Value>)
    | Obj(fields: map<string, Value>)

  lemma Associates<T>(a: seq<T>, b: seq<T>, c: seq<T>)
    ensures a + (b + c) == a + b + c
  {}

  // ----- decimal rendering of integers (Go's %d and %v on an int) -----

  predicate IsDigit(c: char) { '0' <= c <= '9' }

  function DigitChar(d: nat): char
    requires d < 10
  {
    '0' + d as char
  }

  function DecimalNat(n: nat): string {
    if n < 10 then [DigitChar(n)] else DecimalNat(n / 10) + [DigitChar(n % 10)]
  }

  function Decimal(n: int): string {
    if n < 0 then ['-'] + DecimalNat(-n) else DecimalNat(n)
  }

  /** Reads digits from the left; other characters count as their distance from '0', so it is total. */
  function ReadNat(s: string): int {
    if s == [] then 0 else 10 * ReadNat(s[..|s| - 1]) + (s[|s| - 1] as int - '0' as int)
  }

  function ReadInt(s: string): int {
    if s != [] && s[0] == '-' then -ReadNat(s[1..]) else ReadNat(s)
  }

  lemma {:induction false} DecimalNatReads(n: nat)
    ensures ReadNat(DecimalNat(n)) == n
    ensures DecimalNat(n) != []
    ensures forall i :: 0 <= i < |DecimalNat(n)| ==> IsDigit(DecimalNat(n)[i])
  {
    if n >= 10 {
      DecimalNatReads(n / 10);
      assert DecimalNat(n)[..|DecimalNat(n)| - 1] == DecimalNat(n / 10);
    }
  }

  /** Rendering an integer in decimal loses nothing. */
  lemma DecimalReads(n: int)
    ensures ReadInt(Decimal(n)) == n
  {
    if n < 0 {
      DecimalNatReads(-n);
      assert Decimal(n)[1..] == DecimalNat(-n);
    } else {
      DecimalNatReads(n);
    }
  }

  lemma SubsetSize<T>(a: set<T>, b: set<T>)
    requires a <= b
    ensures |a| <= |b|
  {
    assert b == a + (b - a);
  }
}
