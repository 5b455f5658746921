/** Databases, signatures and a cursor format that meet the hypotheses of the relationship and of the
    connection theorems at once, whatever the columns' collations: integers equal their numerals, and any
    other string reads as 0 next to an integer. */
module Consistency {
  import opened Values
  import opened Lex
  import opened SqlText
  import opened SqlMeaning
  import opened KeyConditions
  import opened Window
  import opened KeysetWalk
  import opened Relationship
  import opened Connection

  // ----- the databases -----

  /** The collation of every column, by its sort keys. */
  type Collations = string -> string -> string

  /** The number a string stands for next to an integer. */
  function NumberOf(s: string): int { if s == Decimal(ReadInt(s)) then ReadInt(s) else 0 }

  predicate Same(weight: string -> string, a: Value, b: Value) {
    match (a, b)
    case (Int(n), Str(s)) => n == NumberOf(s)
    case (Str(s), Int(n)) => n == NumberOf(s)
    case (Str(s), Str(t)) => weight(s) == weight(t)
    case _ => a == b
  }

  predicate Above(weight: string -> string, a: Value, b: Value) {
    match (a, b)
    case (Int(n), Int(m)) => n > m
    case (Int(n), Str(s)) => n > NumberOf(s)
    case (Str(s), Int(n)) => NumberOf(s) > n
    case (Str(s), Str(t)) => StringLess(weight(t), weight(s))
    case _ => false
  }

  predicate Compares(weight: string -> string, op: CmpOp, a: Value, b: Value) {
    match op
    case Eq => Same(weight, a, b)
    case Gt => Above(weight, a, b)
    case Gte => Above(weight, a, b) || Same(weight, a, b)
    case Lt => Above(weight, b, a)
    case Lte => Above(weight, b, a) || Same(weight, a, b)
    case _ => false
  }

  function DatabaseOf(collations: Collations): Db {
    Db((col, op, a, b) => Compares(collations(col), op, a, b), (a, b) => Unknown, (a, b) => Unknown,
       (text, r) => Unknown)
  }

  function OrderOf(collations: Collations): ValueOrder { (col, a, b) => !Above(collations(col), a, b) }

  /** The kinds of key columns under these collations. */
  ghost predicate KindsUnder(collations: Collations, pk: seq<string>, kinds: seq<Kind>) {
    |kinds| == |pk| && forall i :: 0 <= i < |pk| ==> kinds[i].IntKind? || kinds[i] == StrKind(collations(pk[i]))
  }

  lemma DatabaseIsExact(collations: Collations, pk: seq<string>, kinds: seq<Kind>)
    requires KindsUnder(collations, pk, kinds)
    ensures ExactSeek(DatabaseOf(collations), pk, kinds) && ExactOrder(OrderOf(collations), pk, kinds)
  {
    StringLessStrictTotal();
    forall i | 0 <= i < |pk|
      ensures SeeksAs(DatabaseOf(collations), pk[i], kinds[i]) && SortsAs(OrderOf(collations), pk[i], kinds[i])
    {
      ColumnIsExact(collations, pk[i], kinds[i]);
    }
  }

  lemma ColumnIsExact(collations: Collations, col: string, kind: Kind)
    requires kind.IntKind? || kind == StrKind(collations(col))
    ensures SeeksAs(DatabaseOf(collations), col, kind) && SortsAs(OrderOf(collations), col, kind)
  {
    var db, le, weight := DatabaseOf(collations), OrderOf(collations), collations(col);
    forall v, s | OfKind(kind, v) && Canonical(kind, s)
      ensures db.cmp(col, Gt, v, Str(s)) <==> KeyValLess(ReadKey(kind, s), AsKey(kind, v))
      ensures db.cmp(col, Eq, v, Str(s)) <==> AsKey(kind, v) == ReadKey(kind, s)
    {
      assert db.cmp(col, Gt, v, Str(s)) <==> Above(weight, v, Str(s));
      assert db.cmp(col, Eq, v, Str(s)) <==> Same(weight, v, Str(s));
    }
    forall v, w | OfKind(kind, v) && OfKind(kind, w)
      ensures le(col, v, w) <==> !KeyValLess(AsKey(kind, w), AsKey(kind, v))
    {
      assert le(col, v, w) <==> !Above(weight, v, w);
    }
  }

  lemma IntegersAreEquivalent(collations: Collations, col: string)
    ensures EquivalenceOn(DatabaseOf(collations), col, INTEGERS)
  {
    var db := DatabaseOf(collations);
    forall a: Value, b: Value | a.Int? && b.Int? ensures db.cmp(col, Eq, a, b) <==> a == b {
      assert db.cmp(col, Eq, a, b) <==> Same(collations(col), a, b);
    }
  }

  // ----- an integer foreign key -----

  const INTEGERS: Domain := (v: Value) => v.Int?

  /** The signature of a key of one integer. */
  function IntSignature(k: Key): string { if |k| == 1 && k[0].Int? then Decimal(k[0].n) else "null" }

  lemma IntSignaturesExact()
    ensures ExactSignatures(IntSignature, [INTEGERS])
  {
    forall a: Key, b: Key | Holdable([INTEGERS], a) && Holdable([INTEGERS], b) && IntSignature(a) == IntSignature(b)
      ensures a == b
    {
      assert a == [a[0]] && b == [b[0]];
      if a[0].Int? { NumeralIsNotNull(a[0].n); }
      if b[0].Int? { NumeralIsNotNull(b[0].n); }
    }
  }

  lemma NumeralIsNotNull(n: int)
    ensures ReadInt(Decimal(n)) == n && Decimal(n) != "null"
  {
    DecimalReads(n);
    if n < 0 { assert Decimal(n)[0] == '-'; } else { DecimalNatReads(n); assert IsDigit(Decimal(n)[0]); }
  }

  /** The field of a to-many relationship over one integer column. */
  function IntField(collations: Collations, table: set<Row>, order: Order, offset: nat, limit: nat): Field {
    Field(DatabaseOf(collations), OrderOf(collations), IntSignature, table, None, None, order, ["id"], ["fk"],
          [INTEGERS], offset + limit, offset, limit)
  }

  /** Over any table whose foreign keys are integers or NULL, the relationship's assumptions hold of a
      database that also compares and sorts the keys of a connection as it needs, under any collations. */
  lemma IntegerKeysMeetAssumptions(collations: Collations, pk: seq<string>, kinds: seq<Kind>,
                                   table: set<Row>, order: Order, offset: nat, limit: nat)
    requires KindsUnder(collations, pk, kinds)
    requires forall r :: r in table ==> Cell(r, "fk").Int? || Cell(r, "fk").Null?
    ensures Assumptions(IntField(collations, table, order, offset, limit))
    ensures ExactSeek(DatabaseOf(collations), pk, kinds) && ExactOrder(OrderOf(collations), pk, kinds)
  {
    DatabaseIsExact(collations, pk, kinds);
    IntSignaturesExact();
    var f, db := IntField(collations, table, order, offset, limit), DatabaseOf(collations);
    IntegersAreEquivalent(collations, "fk");
    forall a: Key, b: Key | InDomain([INTEGERS], a) && InDomain([INTEGERS], b) && TupleEq(db, ["fk"], a, b) == Yes
      ensures a == b
    {
      TupleEqYes(db, ["fk"], a, b);
      assert Cmp(db, "fk", Eq, a[0], b[0]) == Yes;
      assert a == [a[0]] && b == [b[0]];
    }
    forall r | r in table ensures Holdable([INTEGERS], CellsOf(r, ["fk"])) {
      assert CellsOf(r, ["fk"])[0] == Cell(r, "fk");
    }
    ApartMeetsAssumptions(f);
  }

  // ----- a lossless cursor format -----

  function EncodeString(s: string): string { if s == [] then "0" else ['1', s[0]] + EncodeString(s[1..]) }

  function EncodeAll(ss: seq<string>): string { if ss == [] then [] else EncodeString(ss[0]) + EncodeAll(ss[1..]) }

  /** The first string of a text, and the text behind it. */
  function DecodeString(t: string): (r: Option<(string, string)>)
    ensures r.Some? ==> |r.value.1| < |t|
  {
    if t == [] then None
    else if t[0] == '0' then Some(([], t[1..]))
    else if |t| < 2 then None
    else match DecodeString(t[2..]) case None => None case Some((s, rest)) => Some(([t[1]] + s, rest))
  }

  function DecodeAll(t: string): Option<seq<string>>
    decreases |t|
  {
    if t == [] then Some([])
    else
      match DecodeString(t)
      case None => None
      case Some((s, rest)) => match DecodeAll(rest) case None => None case Some(ss) => Some([s] + ss)
  }

  lemma {:induction false} DecodesString(s: string, rest: string)
    ensures DecodeString(EncodeString(s) + rest) == Some((s, rest))
  {
    if s == [] {
      assert ("0" + rest)[1..] == rest;
    } else {
      var t := EncodeString(s) + rest;
      assert t[2..] == EncodeString(s[1..]) + rest;
      DecodesString(s[1..], rest);
      assert s == [s[0]] + s[1..];
    }
  }

  lemma {:induction false} DecodesAll(ss: seq<string>)
    ensures DecodeAll(EncodeAll(ss)) == Some(ss)
  {
    if ss != [] {
      DecodesString(ss[0], EncodeAll(ss[1..]));
      DecodesAll(ss[1..]);
      assert ss == [ss[0]] + ss[1..];
    }
  }

  function EncodeToken(keys: seq<string>, shape: string): string { EncodeAll([shape] + keys) }

  function DecodeToken(t: string): Option<(seq<string>, string)> {
    match DecodeAll(t) case None => None case Some(ss) => if ss == [] then None else Some((ss[1..], ss[0]))
  }

  const CODEC := Codec(EncodeToken, DecodeToken, (v: Value) => "")

  lemma CodecIsLossless()
    ensures Lossless(CODEC)
  {
    forall keys: seq<string>, shape: string
      ensures CODEC.decode(CODEC.encode(keys, shape)) == Some((keys, shape)) && CODEC.encode(keys, shape) != ""
    {
      var ss := [shape] + keys;
      DecodesAll(ss);
      assert ss[1..] == keys;
      assert EncodeString(shape) != "";
    }
  }

  /** Connections over any primary key of integers and strings, under any collations, have a setting that meets
      every hypothesis. */
  lemma SettingExists(collations: Collations, pk: seq<string>, kinds: seq<Kind>, shape: string)
    requires pk != [] && KindsUnder(collations, pk, kinds)
    ensures ValidSetting(Setting(DatabaseOf(collations), OrderOf(collations), CODEC, pk, kinds, None, None, shape))
  {
    DatabaseIsExact(collations, pk, kinds);
    CodecIsLossless();
  }

  // ----- a case-insensitive database -----

  function Lower(c: char): char { if 'A' <= c <= 'Z' then 'a' + (c - 'A') else c }

  function LowerAll(s: string): string { seq(|s|, i requires 0 <= i < |s| => Lower(s[i])) }

  const CASELESS: Collations := (col: string) => LowerAll

  /** A database that equates "A" and "a" in every column meets the hypotheses of a connection over an integer
      key, and over a string key under its own collation. */
  lemma CaselessSetting(shape: string)
    ensures DatabaseOf(CASELESS).cmp("fk", Eq, Str("A"), Str("a"))
    ensures ValidSetting(Setting(DatabaseOf(CASELESS), OrderOf(CASELESS), CODEC, ["id"], [IntKind], None, None, shape))
    ensures ValidSetting(Setting(DatabaseOf(CASELESS), OrderOf(CASELESS), CODEC, ["name"], [StrKind(LowerAll)], None,
                                 None, shape))
  {
    assert LowerAll("A") == LowerAll("a");
    SettingExists(CASELESS, ["id"], [IntKind], shape);
    SettingExists(CASELESS, ["name"], [StrKind(LowerAll)], shape);
  }
}
