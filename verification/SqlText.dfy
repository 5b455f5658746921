/** SQL text as tokens: how driver placeholders are bound to arguments, and a parser
    for WHERE expressions with SQL precedence (NOT over AND over OR). */
module SqlText {
  import opened Values

  datatype Token =
    | LParen | RParen | Comma
    | KwAnd | KwOr | KwNot | KwIn | KwIs | KwNull | KwLike | KwRegexp
    | Op(symbol: string)
    | Ident(name: string)      // an identifier: backtick-quoted, or one of the statement's own aliases
    | Call(func: string)       // a function name
    | Quote(text: string)      // a string literal
    | Number(n: int)
    | Word(text: string)       // a keyword of the statement around the condition
    | Raw(text: string)        // one developer-written predicate without connectives or placeholders
    | Hole                     // the placeholder "?"
    | Bound(v: Value)          // a placeholder after binding

  type Text = seq<Token>

  /** A SQL fragment plus its bound arguments. */
  datatype Condition = Condition(sql: Text, args: seq<Value>)

  // ----- placeholder binding -----

  function Holes(ts: Text): nat {
    if ts == [] then 0 else (if ts[0].Hole? then 1 else 0) + Holes(ts[1..])
  }

  /** The text the database executes: the i-th placeholder stands for the i-th argument. */
  function Bind(ts: Text, args: seq<Value>): Text
    requires Holes(ts) == |args|
  {
    if ts == [] then []
    else if ts[0].Hole? then [Bound(args[0])] + Bind(ts[1..], args[1..])
    else [ts[0]] + Bind(ts[1..], args)
  }

  predicate Aligned(c: Condition) { Holes(c.sql) == |c.args| }

  function BoundText(c: Condition): Text
    requires Aligned(c)
  {
    Bind(c.sql, c.args)
  }

  lemma {:induction false} BindConcat(a: Text, xs: seq<Value>, b: Text, ys: seq<Value>)
    requires Holes(a) == |xs| && Holes(b) == |ys|
    ensures Holes(a + b) == |xs + ys|
    ensures Bind(a + b, xs + ys) == Bind(a, xs) + Bind(b, ys)
  {
    if a == [] {
      assert a + b == b && xs + ys == ys;
    } else {
      assert (a + b)[1..] == a[1..] + b;
      if a[0].Hole? {
        assert (xs + ys)[1..] == xs[1..] + ys;
        BindConcat(a[1..], xs[1..], b, ys);
      } else {
        BindConcat(a[1..], xs, b, ys);
      }
    }
  }

  predicate NoHoles(ts: Text) { forall i :: 0 <= i < |ts| ==> !ts[i].Hole? }

  lemma {:induction false} BindNoHoles(ts: Text)
    requires NoHoles(ts)
    ensures Holes(ts) == 0 && Bind(ts, []) == ts
  {
    if ts != [] { BindNoHoles(ts[1..]); }
  }

  /** Text before and after a fragment that holds no placeholder leaves its binding alone. */
  lemma BindAround(pre: Text, ts: Text, args: seq<Value>, post: Text)
    requires Holes(ts) == |args|
    requires NoHoles(pre)
    requires NoHoles(post)
    ensures Holes(pre + ts + post) == |args|
    ensures Bind(pre + ts + post, args) == pre + Bind(ts, args) + post
  {
    BindNoHoles(pre);
    BindNoHoles(post);
    BindConcat(pre, [], ts, args);
    assert [] + args == args;
    BindConcat(pre + ts, args, post, []);
    assert args + [] == args;
  }

  // ----- joining fragments -----

  /** strings.Join over token texts. */
  function Join(parts: seq<Text>, sep: Text): Text {
    if parts == [] then []
    else if |parts| == 1 then parts[0]
    else parts[0] + sep + Join(parts[1..], sep)
  }

  function Texts(cs: seq<Condition>): (r: seq<Text>)
    ensures |r| == |cs| && forall i :: 0 <= i < |cs| ==> r[i] == cs[i].sql
  {
    if cs == [] then [] else [cs[0].sql] + Texts(cs[1..])
  }

  function Arguments(cs: seq<Condition>): seq<Value> {
    if cs == [] then [] else cs[0].args + Arguments(cs[1..])
  }

  lemma {:induction false} ArgumentsConcat(cs: seq<Condition>, ds: seq<Condition>)
    ensures Arguments(cs + ds) == Arguments(cs) + Arguments(ds)
    ensures Texts(cs + ds) == Texts(cs) + Texts(ds)
  {
    if cs == [] {
      assert cs + ds == ds && Arguments(cs) + Arguments(ds) == Arguments(ds) && Texts(cs) + Texts(ds) == Texts(ds);
    } else {
      assert (cs + ds)[1..] == cs[1..] + ds && (cs + ds)[0] == cs[0];
      ArgumentsConcat(cs[1..], ds);
      Associates(cs[0].args, Arguments(cs[1..]), Arguments(ds));
      Associates([cs[0].sql], Texts(cs[1..]), Texts(ds));
    }
  }

  function BoundTexts(cs: seq<Condition>): (r: seq<Text>)
    requires forall i :: 0 <= i < |cs| ==> Aligned(cs[i])
    ensures |r| == |cs| && forall i :: 0 <= i < |cs| ==> r[i] == BoundText(cs[i])
  {
    if cs == [] then [] else [BoundText(cs[0])] + BoundTexts(cs[1..])
  }

  /** Joining fragments and appending their argument lists in the same order keeps every
      placeholder bound to the argument its own fragment meant. */
  lemma {:induction false} JoinBinds(cs: seq<Condition>, sep: Text)
    requires forall i :: 0 <= i < |cs| ==> Aligned(cs[i])
    requires NoHoles(sep)
    ensures Holes(Join(Texts(cs), sep)) == |Arguments(cs)|
    ensures Bind(Join(Texts(cs), sep), Arguments(cs)) == Join(BoundTexts(cs), sep)
  {
    if |cs| == 1 {
      assert Arguments(cs) == cs[0].args + [] == cs[0].args;
    } else if |cs| > 1 {
      JoinBinds(cs[1..], sep);
      BindNoHoles(sep);
      BindConcat(cs[0].sql, cs[0].args, sep, []);
      assert cs[0].args + [] == cs[0].args;
      BindConcat(cs[0].sql + sep, cs[0].args, Join(Texts(cs[1..]), sep), Arguments(cs[1..]));
    }
  }

  // ----- the columns a text names -----

  /** Every identifier in the text is one of these. */
  predicate NamesOnly(ts: Text, names: set<string>) {
    forall i :: 0 <= i < |ts| && ts[i].Ident? ==> ts[i].name in names
  }

  lemma NamesOnlyConcat(a: Text, b: Text, names: set<string>)
    requires NamesOnly(a, names) && NamesOnly(b, names)
    ensures NamesOnly(a + b, names)
  {
  }

  lemma {:induction false} NamesOnlyJoin(parts: seq<Text>, sep: Text, names: set<string>)
    requires NamesOnly(sep, names) && forall i :: 0 <= i < |parts| ==> NamesOnly(parts[i], names)
    ensures NamesOnly(Join(parts, sep), names)
  {
    if |parts| > 1 {
      NamesOnlyJoin(parts[1..], sep, names);
      NamesOnlyConcat(parts[0], sep, names);
      NamesOnlyConcat(parts[0] + sep, Join(parts[1..], sep), names);
    }
  }

  // ----- expressions -----

  datatype CmpOp = Eq | Gt | Gte | Lt | Lte | LikeOp | RegexpOp

  datatype Pred =
    | Const(truth: bool)                               // 1=1, 1=0
    | Compare(col: string, op: CmpOp, v: Value)
    | InList(col: string, vals: seq<Value>)
    | IsNull(col: string)
    | RowGreater(cols: seq<string>, vals: seq<Value>)
    | RowIn(cols: seq<string>, tuples: seq<seq<Value>>)
    | JsonContains(col: string, v: Value)
    | JsonHasKey(col: string, v: Value)
    | Opaque(text: string)

  datatype Expr = Leaf(p: Pred) | NotE(e: Expr) | AndE(l: Expr, r: Expr) | OrE(l: Expr, r: Expr)

  // ----- the parser -----

  datatype Parse = Fail | Done(e: Expr, rest: Text)

  function ParseOr(ts: Text): (p: Parse)
    ensures p.Done? ==> |p.rest| < |ts|
    decreases |ts|, 3
  {
    match ParseAnd(ts)
    case Fail => Fail
    case Done(l, rest) =>
      if rest != [] && rest[0].KwOr? then
        match ParseOr(rest[1..])
        case Fail => Fail
        case Done(r, rest2) => Done(OrE(l, r), rest2)
      else Done(l, rest)
  }

  function ParseAnd(ts: Text): (p: Parse)
    ensures p.Done? ==> |p.rest| < |ts|
    decreases |ts|, 2
  {
    match ParseNot(ts)
    case Fail => Fail
    case Done(l, rest) =>
      if rest != [] && rest[0].KwAnd? then
        match ParseAnd(rest[1..])
        case Fail => Fail
        case Done(r, rest2) => Done(AndE(l, r), rest2)
      else Done(l, rest)
  }

  function ParseNot(ts: Text): (p: Parse)
    ensures p.Done? ==> |p.rest| < |ts|
    decreases |ts|, 1
  {
    if ts != [] && ts[0].KwNot? then
      match ParseNot(ts[1..])
      case Fail => Fail
      case Done(e, rest) => Done(NotE(e), rest)
    else ParsePrimary(ts)
  }

  function ParsePrimary(ts: Text): (p: Parse)
    ensures p.Done? ==> |p.rest| < |ts|
    decreases |ts|, 0
  {
    if ts == [] then Fail
    else match ts[0]
      case LParen =>
        if |ts| > 2 && ts[1].Ident? && ts[2].Comma? then ParseRow(ts[1..])
        else
          match ParseOr(ts[1..]) {
            case Fail => Fail
            case Done(e, rest) => if rest != [] && rest[0].RParen? then Done(e, rest[1..]) else Fail
          }
      case Ident(c) => ParseColumn(c, ts[1..])
      case Number(n) =>
        if |ts| > 2 && ts[1] == Op("=") && ts[2].Number? then Done(Leaf(Const(n == ts[2].n)), ts[3..]) else Fail
      case Raw(text) => Done(Leaf(Opaque(text)), ts[1..])
      case Call(f) => ParseCall(f, ts[1..])
      case _ => Fail
  }

  /** A literal, NULL or bound value is one token. */
  function ValueOf(t: Token): Option<Value> {
    match t
    case Bound(v) => Some(v)
    case Number(n) => Some(Int(n))
    case Quote(s) => Some(Str(s))
    case KwNull => Some(Null)
    case _ => None
  }

  /** What follows a column name: a comparison, [NOT] LIKE, [NOT] REGEXP, [NOT] IN or IS [NOT] NULL. */
  function ParseColumn(c: string, ts: Text): (p: Parse)
    ensures p.Done? ==> |p.rest| < |ts|
  {
    if |ts| < 2 then Fail
    else match ts[0]
      case Op(symbol) =>
        (match ValueOf(ts[1])
         case None => Fail
         case Some(v) =>
           match Comparison(symbol, c, v)
           case None => Fail
           case Some(e) => Done(e, ts[2..]))
      case KwIs =>
        if ts[1].KwNull? then Done(Leaf(IsNull(c)), ts[2..])
        else if |ts| > 2 && ts[1].KwNot? && ts[2].KwNull? then Done(NotE(Leaf(IsNull(c))), ts[3..])
        else Fail
      case KwNot =>
        (match ParseMatch(c, ts[1..])
         case Fail => Fail
         case Done(e, rest) => Done(NotE(e), rest))
      case _ => ParseMatch(c, ts)
  }

  function Comparison(symbol: string, c: string, v: Value): Option<Expr> {
    match symbol
    case "=" => Some(Leaf(Compare(c, Eq, v)))
    case "<>" => Some(NotE(Leaf(Compare(c, Eq, v))))
    case ">" => Some(Leaf(Compare(c, Gt, v)))
    case ">=" => Some(Leaf(Compare(c, Gte, v)))
    case "<" => Some(Leaf(Compare(c, Lt, v)))
    case "<=" => Some(Leaf(Compare(c, Lte, v)))
    case _ => None
  }

  function ParseMatch(c: string, ts: Text): (p: Parse)
    ensures p.Done? ==> |p.rest| < |ts|
  {
    if |ts| < 2 then Fail
    else match ts[0]
      case KwLike =>
        (match ValueOf(ts[1])
         case None => Fail
         case Some(v) => Done(Leaf(Compare(c, LikeOp, v)), ts[2..]))
      case KwRegexp =>
        (match ValueOf(ts[1])
         case None => Fail
         case Some(v) => Done(Leaf(Compare(c, RegexpOp, v)), ts[2..]))
      case KwIn =>
        if !ts[1].LParen? then Fail
        else
          (match ParseValues(ts[2..])
           case None => Fail
           case Some((vs, rest)) => Done(Leaf(InList(c, vs)), rest))
      case _ => Fail
  }

  /** "v, v, …)": a non-empty value list up to and including its closing parenthesis. */
  function ParseValues(ts: Text): (r: Option<(seq<Value>, Text)>)
    ensures r.Some? ==> |r.value.1| < |ts|
  {
    if |ts| < 2 || ValueOf(ts[0]).None? then None
    else
      var v := ValueOf(ts[0]).value;
      if ts[1].RParen? then Some(([v], ts[2..]))
      else if ts[1].Comma? then
        match ParseValues(ts[2..])
        case None => None
        case Some((vs, rest)) => Some(([v] + vs, rest))
      else None
  }

  /** "`a`, `b`, …)": a column tuple up to and including its closing parenthesis. */
  function ParseColumns(ts: Text): (r: Option<(seq<string>, Text)>)
    ensures r.Some? ==> |r.value.1| < |ts|
  {
    if |ts| < 2 || !ts[0].Ident? then None
    else if ts[1].RParen? then Some(([ts[0].name], ts[2..]))
    else if ts[1].Comma? then
      match ParseColumns(ts[2..])
      case None => None
      case Some((cs, rest)) => Some(([ts[0].name] + cs, rest))
    else None
  }

  /** "(v, …), (v, …), …)": a list of value tuples up to and including its closing parenthesis. */
  function ParseTuples(ts: Text): (r: Option<(seq<seq<Value>>, Text)>)
    ensures r.Some? ==> |r.value.1| < |ts|
    decreases |ts|
  {
    if ts == [] || !ts[0].LParen? then None
    else match ParseValues(ts[1..])
      case None => None
      case Some((vs, rest)) =>
        if rest == [] then None
        else if rest[0].RParen? then Some(([vs], rest[1..]))
        else if rest[0].Comma? then
          match ParseTuples(rest[1..])
          case None => None
          case Some((more, rest2)) => Some(([vs] + more, rest2))
        else None
  }

  /** A row value "`a`, `b`) > (v, v)" or "`a`, `b`) IN ((v, v), …)", its first parenthesis already read. */
  function ParseRow(ts: Text): (p: Parse)
    ensures p.Done? ==> |p.rest| < |ts|
  {
    match ParseColumns(ts)
    case None => Fail
    case Some((cols, rest)) =>
      if |rest| < 2 || !rest[1].LParen? then Fail
      else if rest[0] == Op(">") then
        match ParseValues(rest[2..])
        case None => Fail
        case Some((vs, rest2)) => if |vs| == |cols| then Done(Leaf(RowGreater(cols, vs)), rest2) else Fail
      else if rest[0].KwIn? then
        match ParseTuples(rest[2..])
        case None => Fail
        case Some((tuples, rest2)) =>
          if forall i :: 0 <= i < |tuples| ==> |tuples[i]| == |cols| then Done(Leaf(RowIn(cols, tuples)), rest2)
          else Fail
      else Fail
  }

  function ParseCall(f: string, ts: Text): (p: Parse)
    ensures p.Done? ==> |p.rest| < |ts|
  {
    if |ts| < 5 || !ts[0].LParen? || !ts[1].Ident? || !ts[2].Comma? then Fail
    else if f == "JSON_CONTAINS" then
      match ValueOf(ts[3])
      case None => Fail
      case Some(v) => if ts[4].RParen? then Done(Leaf(JsonContains(ts[1].name, v)), ts[5..]) else Fail
    else if f == "JSON_CONTAINS_PATH" then
      if |ts| > 11 && ts[3] == Quote("one") && ts[4].Comma? && ts[5] == Call("CONCAT") && ts[6].LParen? &&
         ts[7] == Quote("$.") && ts[8].Comma? && ValueOf(ts[9]).Some? && ts[10].RParen? && ts[11].RParen?
      then Done(Leaf(JsonHasKey(ts[1].name, ValueOf(ts[9]).value)), ts[12..])
      else Fail
    else Fail
  }

  // ----- what the parser does with more text behind an expression -----

  lemma {:induction false} ParseValuesExtend(ts: Text, s: Text)
    requires ParseValues(ts).Some?
    ensures ParseValues(ts + s) == Some((ParseValues(ts).value.0, ParseValues(ts).value.1 + s))
  {
    assert (ts + s)[2..] == ts[2..] + s;
    if ts[1].Comma? { ParseValuesExtend(ts[2..], s); }
  }

  lemma {:induction false} ParseColumnsExtend(ts: Text, s: Text)
    requires ParseColumns(ts).Some?
    ensures ParseColumns(ts + s) == Some((ParseColumns(ts).value.0, ParseColumns(ts).value.1 + s))
  {
    assert (ts + s)[2..] == ts[2..] + s;
    if ts[1].Comma? { ParseColumnsExtend(ts[2..], s); }
  }

  lemma {:induction false} ParseTuplesExtend(ts: Text, s: Text)
    requires ParseTuples(ts).Some?
    ensures ParseTuples(ts + s) == Some((ParseTuples(ts).value.0, ParseTuples(ts).value.1 + s))
    decreases |ts|
  {
    assert (ts + s)[1..] == ts[1..] + s;
    ParseValuesExtend(ts[1..], s);
    var rest := ParseValues(ts[1..]).value.1;
    assert (rest + s)[1..] == rest[1..] + s;
    if rest[0].Comma? { ParseTuplesExtend(rest[1..], s); }
  }

  lemma ParseRowExtend(ts: Text, s: Text)
    requires ParseRow(ts).Done?
    ensures ParseRow(ts + s) == Done(ParseRow(ts).e, ParseRow(ts).rest + s)
  {
    ParseColumnsExtend(ts, s);
    var rest := ParseColumns(ts).value.1;
    assert (rest + s)[2..] == rest[2..] + s;
    if rest[0] == Op(">") { ParseValuesExtend(rest[2..], s); } else { ParseTuplesExtend(rest[2..], s); }
  }

  lemma ParseMatchExtend(c: string, ts: Text, s: Text)
    requires ParseMatch(c, ts).Done?
    ensures ParseMatch(c, ts + s) == Done(ParseMatch(c, ts).e, ParseMatch(c, ts).rest + s)
  {
    assert (ts + s)[2..] == ts[2..] + s;
    if ts[0].KwIn? { ParseValuesExtend(ts[2..], s); }
  }

  lemma ParseColumnExtend(c: string, ts: Text, s: Text)
    requires ParseColumn(c, ts).Done?
    ensures ParseColumn(c, ts + s) == Done(ParseColumn(c, ts).e, ParseColumn(c, ts).rest + s)
  {
    assert (ts + s)[2..] == ts[2..] + s;
    if ts[0].KwIs? {
      if |ts| > 2 { assert (ts + s)[3..] == ts[3..] + s; }
    } else if ts[0].KwNot? {
      assert (ts + s)[1..] == ts[1..] + s;
      ParseMatchExtend(c, ts[1..], s);
    } else if !ts[0].Op? {
      ParseMatchExtend(c, ts, s);
    }
  }

  lemma {:induction false} ParsePrimaryExtend(ts: Text, s: Text)
    requires ParsePrimary(ts).Done?
    ensures ParsePrimary(ts + s) == Done(ParsePrimary(ts).e, ParsePrimary(ts).rest + s)
    decreases |ts|, 0
  {
    assert (ts + s)[1..] == ts[1..] + s;
    match ts[0]
    case LParen =>
      if |ts| > 2 && ts[1].Ident? && ts[2].Comma? {
        ParseRowExtend(ts[1..], s);
      } else {
        var p := ParseOr(ts[1..]);
        ParseOrExtend(ts[1..], s);
        assert (p.rest + s)[1..] == p.rest[1..] + s;
      }
    case Ident(c) => ParseColumnExtend(c, ts[1..], s);
    case Number(_) => assert (ts + s)[3..] == ts[3..] + s;
    case Raw(_) =>
    case Call(f) =>
      assert (ts[1..] + s)[5..] == ts[1..][5..] + s;
      if |ts[1..]| > 11 { assert (ts[1..] + s)[12..] == ts[1..][12..] + s; }
    case _ =>
  }

  lemma {:induction false} ParseNotExtend(ts: Text, s: Text)
    requires ParseNot(ts).Done?
    ensures ParseNot(ts + s) == Done(ParseNot(ts).e, ParseNot(ts).rest + s)
    decreases |ts|, 1
  {
    if ts[0].KwNot? {
      assert (ts + s)[1..] == ts[1..] + s;
      ParseNotExtend(ts[1..], s);
    } else {
      ParsePrimaryExtend(ts, s);
    }
  }

  lemma {:induction false} ParseAndExtend(ts: Text, s: Text)
    requires ParseAnd(ts).Done?
    requires s == [] || !s[0].KwAnd? || ParseAnd(ts).rest != []
    ensures ParseAnd(ts + s) == Done(ParseAnd(ts).e, ParseAnd(ts).rest + s)
    decreases |ts|, 2
  {
    ParseNotExtend(ts, s);
    var rest := ParseNot(ts).rest;
    if rest != [] && rest[0].KwAnd? {
      assert (rest + s)[1..] == rest[1..] + s;
      ParseAndExtend(rest[1..], s);
    } else if rest == [] {
      assert rest + s == s;
    }
  }

  lemma {:induction false} ParseOrExtend(ts: Text, s: Text)
    requires ParseOr(ts).Done?
    requires s == [] || (!s[0].KwAnd? && !s[0].KwOr?) || ParseOr(ts).rest != []
    ensures ParseOr(ts + s) == Done(ParseOr(ts).e, ParseOr(ts).rest + s)
    decreases |ts|, 3
  {
    var rest := ParseAnd(ts).rest;
    ParseAndExtend(ts, s);
    if rest != [] && rest[0].KwOr? {
      assert (rest + s)[1..] == rest[1..] + s;
      ParseOrExtend(rest[1..], s);
    } else if rest == [] {
      assert rest + s == s;
    }
  }

  // ----- whole expressions and units -----

  /** The text is one whole WHERE expression. */
  predicate Complete(ts: Text, e: Expr) { ParseOr(ts) == Done(e, []) }

  /** The text is one operand of AND/OR: it binds at least as tightly as NOT. */
  predicate Unit(ts: Text, e: Expr) { ParseNot(ts) == Done(e, []) }

  function Parens(ts: Text): Text { [LParen] + ts + [RParen] }

  /** Parenthesising a whole expression makes it an operand. */
  lemma ParenthesesMakeUnit(ts: Text, e: Expr)
    requires Complete(ts, e)
    ensures Unit(Parens(ts), e)
  {
    ParseOrExtend(ts, [RParen]);
    assert [] + [RParen] == [RParen];
    assert Parens(ts)[1..] == ts + [RParen];
    assert [RParen][1..] == [];
    if |ts| > 1 && ts[0].Ident? && ts[1].Comma? {
      ColumnListFails(ts);
      assert false;
    }
  }

  /** A list of columns is no expression. */
  lemma ColumnListFails(ts: Text)
    requires |ts| > 1 && ts[0].Ident? && ts[1].Comma?
    ensures ParseOr(ts).Fail?
  {
    assert ts[1..][0] == ts[1];
    assert ParseColumn(ts[0].name, ts[1..]).Fail?;
    assert ParsePrimary(ts).Fail?;
    assert ParseNot(ts).Fail?;
  }

  /** NOT in front of a parenthesised whole expression is an operand. */
  lemma NegationIsUnit(ts: Text, e: Expr)
    requires Complete(ts, e)
    ensures Unit([KwNot] + Parens(ts), NotE(e))
  {
    ParenthesesMakeUnit(ts, e);
    assert ([KwNot] + Parens(ts))[1..] == Parens(ts);
  }

  function AndAll(es: seq<Expr>): Expr
    requires es != []
  {
    if |es| == 1 then es[0] else AndE(es[0], AndAll(es[1..]))
  }

  function OrAll(es: seq<Expr>): Expr
    requires es != []
  {
    if |es| == 1 then es[0] else OrE(es[0], OrAll(es[1..]))
  }

  lemma AndStep(u: Text, e: Expr, tail: Text, f: Expr)
    requires Unit(u, e) && ParseAnd(tail) == Done(f, [])
    ensures ParseAnd(u + ([KwAnd] + tail)) == Done(AndE(e, f), [])
  {
    ParseNotExtend(u, [KwAnd] + tail);
    assert [] + ([KwAnd] + tail) == [KwAnd] + tail && ([KwAnd] + tail)[1..] == tail;
  }

  lemma OrStep(u: Text, e: Expr, tail: Text, f: Expr)
    requires Unit(u, e) && ParseOr(tail) == Done(f, [])
    ensures ParseOr(u + ([KwOr] + tail)) == Done(OrE(e, f), [])
  {
    var rest := [KwOr] + tail;
    ParseNotExtend(u, rest);
    assert [] + rest == rest && rest[1..] == tail;
    assert ParseAnd(u + rest) == Done(e, rest);
  }

  lemma {:induction false} JoinAndParses(parts: seq<Text>, es: seq<Expr>)
    requires |parts| == |es| > 0
    requires forall i :: 0 <= i < |parts| ==> Unit(parts[i], es[i])
    ensures ParseAnd(Join(parts, [KwAnd])) == Done(AndAll(es), [])
    ensures Complete(Join(parts, [KwAnd]), AndAll(es))
  {
    if |parts| > 1 {
      JoinAndParses(parts[1..], es[1..]);
      var tail := Join(parts[1..], [KwAnd]);
      AndStep(parts[0], es[0], tail, AndAll(es[1..]));
      Associates(parts[0], [KwAnd], tail);
    }
  }

  lemma {:induction false} JoinOrParses(parts: seq<Text>, es: seq<Expr>)
    requires |parts| == |es| > 0
    requires forall i :: 0 <= i < |parts| ==> Unit(parts[i], es[i])
    ensures Complete(Join(parts, [KwOr]), OrAll(es))
  {
    if |parts| > 1 {
      JoinOrParses(parts[1..], es[1..]);
      var tail := Join(parts[1..], [KwOr]);
      OrStep(parts[0], es[0], tail, OrAll(es[1..]));
      Associates(parts[0], [KwOr], tail);
    }
  }
}
