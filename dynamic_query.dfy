/**
 * The dynamic WHERE clause shared by the SQL and the JPQL repositories.
 * Both start from a fixed "select everything" text and append, in order,
 * the fragments of a clause plan: ` where`, the name LIKE test, ` and`,
 * the price bound. `Plan` says which fragments a condition calls for,
 * `Render` spells a plan in one of the two query languages, and the
 * lemmas below read the keywords and `:name` placeholders back out of the
 * rendered text.
 */
module DynamicQuery {
  import opened Wrappers
  import opened Text
  import opened Domain
  import opened ItemFilter

  datatype Dialect = Sql | Jpql

  /** The kinds of fragment a query builder appends. */
  datatype Clause = Where | NameLike | And | PriceLoe

  /**
   * The words of one query language: the unconditional query a builder
   * starts from, and the text it appends for each clause.
   */
  datatype Syntax = Syntax(base: string, where: string, nameLike: string, and: string, priceLoe: string)

  /*
   * The texts below are spelled as concatenations of short pieces, each
   * starting a new token, so that the lemmas about them can work piece by
   * piece.
   */

  /**
   * SQL: `select id, item_name, price, quantity from item`, ` where`,
   * ` item_name like concat('%', :itemName,'%')`, ` and` and
   * ` price <= :maxPrice`. JPQL: `select i from Item i`, ` where`,
   * ` i.itemName like concat('%',:itemName,'%')`, ` and` and
   * ` i.price <= :maxPrice`.
   */
  function SyntaxOf(d: Dialect): Syntax
  {
    match d
    case Sql =>
      Syntax("select id," + (" item_name," + " price, quantity from item"), " where",
             " item_name" + NameTest(" "), " and", " price" + PriceTest())
    case Jpql =>
      Syntax("select i from Item i", " where", " i.itemName" + NameTest(""), " and", " i.price" + PriceTest())
  }

  /** The name test after its column; the SQL text puts a space (`gap`) before the placeholder, the JPQL text does not. */
  function NameTest(gap: string): string
  {
    " like" + (" concat('%'," + (gap + ":itemName,'%')"))
  }

  /** The price test after its column. */
  function PriceTest(): string
  {
    " <=" + (" " + ":maxPrice")
  }

  /** The text appended for one clause. */
  function Fragment(s: Syntax, c: Clause): string
  {
    match c
    case Where => s.where
    case NameLike => s.nameLike
    case And => s.and
    case PriceLoe => s.priceLoe
  }

  /** The keyword by which a clause shows in the query text. */
  function Keyword(c: Clause): string
  {
    match c
    case Where => " where"
    case NameLike => " like"
    case And => " and"
    case PriceLoe => " <="
  }

  /** The parameter a clause refers to. */
  function Param(c: Clause): set<string>
  {
    match c
    case NameLike => {"itemName"}
    case PriceLoe => {"maxPrice"}
    case _ => {}
  }

  /** The query text after the fragments of `plan` have been appended to the base, one by one. */
  function Render(s: Syntax, plan: seq<Clause>): string
  {
    if plan == [] then s.base else Render(s, plan[..|plan| - 1]) + Fragment(s, plan[|plan| - 1])
  }

  /** The clauses of `plan`, collected the way `Render` walks it. */
  function ClauseSet(plan: seq<Clause>): set<Clause>
  {
    if plan == [] then {} else ClauseSet(plan[..|plan| - 1]) + {plan[|plan| - 1]}
  }

  /** The parameters the clauses of `plan` refer to. */
  function Params(plan: seq<Clause>): set<string>
  {
    if plan == [] then {} else Params(plan[..|plan| - 1]) + Param(plan[|plan| - 1])
  }

  /**
   * The clauses a condition calls for, by its four cases. The plan is well
   * formed: ` where` leads exactly when some filter is present, ` and` sits
   * exactly between the two filters when both are present, and the price
   * bound, when present, comes last.
   */
  function Plan(hasName: bool, hasPrice: bool): (plan: seq<Clause>)
    ensures Where in plan <==> hasName || hasPrice
    ensures NameLike in plan <==> hasName
    ensures PriceLoe in plan <==> hasPrice
    ensures And in plan <==> hasName && hasPrice
    ensures plan != [] ==> plan[0] == Where && plan[|plan| - 1] != And
    ensures hasPrice ==> plan[|plan| - 1] == PriceLoe
    ensures forall i :: 0 <= i < |plan| && plan[i] == And ==>
              0 < i < |plan| - 1 && plan[i - 1] == NameLike && plan[i + 1] == PriceLoe
  {
    match (hasName, hasPrice)
    case (false, false) => []
    case (true, false) => [Where, NameLike]
    case (false, true) => [Where, PriceLoe]
    case (true, true) => [Where, NameLike, And, PriceLoe]
  }

  /** The plan of a search condition: a name counts only when it has text. */
  function PlanOf(cond: ItemSearchCond): seq<Clause>
  {
    Plan(HasText(cond.itemName), cond.maxPrice.Some?)
  }

  /** A value bound to a named query parameter. */
  datatype SqlValue = Null | Text(text: string) | Number(number: int)

  function TextValue(s: Option<string>): SqlValue
  {
    if s.Some? then Text(s.value) else Null
  }

  function NumberValue(n: Option<int>): SqlValue
  {
    if n.Some? then Number(n.value) else Null
  }

  /**
   * The bindings a query needs for a condition: the name as given when it
   * has text, the bound when it is present.
   */
  predicate BindsCond(params: map<string, SqlValue>, cond: ItemSearchCond)
  {
    && (HasText(cond.itemName) ==> "itemName" in params && params["itemName"] == Text(cond.itemName.value))
    && (cond.maxPrice.Some? ==> "maxPrice" in params && params["maxPrice"] == Number(cond.maxPrice.value))
  }

  /**
   * What a clause asks of a row once the database has substituted the bound
   * parameters: the name clause is a LIKE test against `'%' + name + '%'`,
   * the price clause an inclusive bound. A missing or mistyped binding is an
   * error in the database; it never arises for the queries built here.
   */
  function Denote(c: Clause, params: map<string, SqlValue>): seq<Predicate>
  {
    match c
    case NameLike =>
      if "itemName" in params && params["itemName"].Text? then [Like(NamePattern(params["itemName"].text))] else []
    case PriceLoe =>
      if "maxPrice" in params && params["maxPrice"].Number? then [Loe(params["maxPrice"].number)] else []
    case _ => []
  }

  function DenotePlan(plan: seq<Clause>, params: map<string, SqlValue>): seq<Predicate>
  {
    if plan == [] then [] else DenotePlan(plan[..|plan| - 1], params) + Denote(plan[|plan| - 1], params)
  }

  /**
   * The WHERE clause built for a condition, with the condition's values
   * bound, asks the same conjunction as the QueryDSL builder.
   */
  lemma PlanDenotesConjuncts(cond: ItemSearchCond, params: map<string, SqlValue>)
    requires BindsCond(params, cond)
    ensures DenotePlan(PlanOf(cond), params) == Conjuncts(cond)
  {
    var hasName, hasPrice := HasText(cond.itemName), cond.maxPrice.Some?;
    var name := if hasName then [Like(NamePattern(cond.itemName.value))] else [];
    var price := if hasPrice then [Loe(cond.maxPrice.value)] else [];
    assert Conjuncts(cond) == name + price;
    assert hasName ==> Denote(NameLike, params) == name;
    assert hasPrice ==> Denote(PriceLoe, params) == price;
    PlanDenotes(hasName, hasPrice, params);
  }

  /** The conjunction asked by each of the four plans. */
  lemma PlanDenotes(hasName: bool, hasPrice: bool, params: map<string, SqlValue>)
    ensures DenotePlan(Plan(hasName, hasPrice), params) ==
              (if hasName then Denote(NameLike, params) else []) + (if hasPrice then Denote(PriceLoe, params) else [])
  {
    if hasName && hasPrice {
      DenoteBoth(params);
    } else if hasName {
      DenoteOne(NameLike, params);
    } else if hasPrice {
      DenoteOne(PriceLoe, params);
    }
  }

  lemma DenoteBoth(params: map<string, SqlValue>)
    ensures DenotePlan([Where, NameLike, And, PriceLoe], params) == Denote(NameLike, params) + Denote(PriceLoe, params)
  {
    assert [Where, NameLike, And, PriceLoe] == [Where, NameLike, And] + [PriceLoe];
    assert [Where, NameLike, And] == [Where, NameLike] + [And];
    assert [Where, NameLike] == [Where] + [NameLike];
    DenoteAppend([Where, NameLike, And], [PriceLoe], params);
    DenoteAppend([Where, NameLike], [And], params);
    DenoteAppend([Where], [NameLike], params);
    DenoteSingle(Where, params); DenoteSingle(NameLike, params);
    DenoteSingle(And, params); DenoteSingle(PriceLoe, params);
  }

  lemma DenoteOne(c: Clause, params: map<string, SqlValue>)
    ensures DenotePlan([Where, c], params) == Denote(c, params)
  {
    assert [Where, c] == [Where] + [c];
    DenoteAppend([Where], [c], params);
    DenoteSingle(Where, params); DenoteSingle(c, params);
  }

  lemma DenoteSingle(c: Clause, params: map<string, SqlValue>)
    ensures DenotePlan([c], params) == Denote(c, params)
  {
    assert [c][..0] == [];
  }

  lemma {:induction false} DenoteAppend(a: seq<Clause>, b: seq<Clause>, params: map<string, SqlValue>)
    ensures DenotePlan(a + b, params) == DenotePlan(a, params) + DenotePlan(b, params)
    decreases |b|
  {
    if b == [] {
      assert a + b == a;
    } else {
      assert (a + b)[..|a + b| - 1] == a + b[..|b| - 1];
      DenoteAppend(a, b[..|b| - 1], params);
    }
  }

  lemma {:induction false} ParamsAppend(a: seq<Clause>, b: seq<Clause>)
    ensures Params(a + b) == Params(a) + Params(b)
    decreases |b|
  {
    if b == [] {
      assert a + b == a;
    } else {
      assert (a + b)[..|a + b| - 1] == a + b[..|b| - 1];
      ParamsAppend(a, b[..|b| - 1]);
    }
  }

  const AllClauses: set<Clause> := {Where, NameLike, And, PriceLoe}

  /** The clauses whose keyword shows in a piece of query text. */
  ghost function Shows(s: string): set<Clause>
  {
    set k | k in AllClauses && Occurs(Keyword(k), s)
  }

  // Facts about the individual pieces of query text.

  /** Keywords and placeholders of `a + b` are those of `a` and of `b` when `b` opens a new token. */
  lemma Split(a: string, b: string)
    requires |b| > 0 && (b[0] == ' ' || b[0] == ':')
    ensures Shows(a + b) == Shows(a) + Shows(b)
    ensures Placeholders(a + b) == Placeholders(a) + Placeholders(b)
  {
    forall k ensures Occurs(Keyword(k), a + b) <==> Occurs(Keyword(k), a) || Occurs(Keyword(k), b) {
      match k
      case Where => OccursAppend(" where", a, b);
      case NameLike => OccursAppend(" like", a, b);
      case And => OccursAppend(" and", a, b);
      case PriceLoe => OccursAppend(" <=", a, b);
    }
    PlaceholdersAppend(a, b);
  }

  /**
   * A piece with no `w`, `k`, `<` or `:`, and without either `d` or `n`
   * (the `mark`), holds no keyword (each keyword has one of those letters)
   * and no placeholder.
   */
  lemma PlainPiece(p: string, mark: char)
    requires mark == 'd' || mark == 'n'
    requires forall i | 0 <= i < |p| :: p[i] != 'w' && p[i] != 'k' && p[i] != '<' && p[i] != ':' && p[i] != mark
    ensures Shows(p) == {}
    ensures Placeholders(p) == {}
  {
    forall k ensures !Occurs(Keyword(k), p) {
      match k
      case Where => MissingCharNotOccurs(" where", p, 1);
      case NameLike => MissingCharNotOccurs(" like", p, 3);
      case And =>
        if mark == 'd' {
          MissingCharNotOccurs(" and", p, 3);
        } else {
          MissingCharNotOccurs(" and", p, 2);
        }
      case PriceLoe => MissingCharNotOccurs(" <=", p, 1);
    }
    NoColonNoPlaceholders(p);
  }

  /** A keyword on its own contains itself and no other keyword. */
  lemma KeywordPiece(c: Clause)
    ensures Shows(Keyword(c)) == {c}
    ensures Placeholders(Keyword(c)) == {}
  {
    OccursSelf(Keyword(c));
    NoColonNoPlaceholders(Keyword(c));
    forall k | k != c ensures !Occurs(Keyword(k), Keyword(c)) {
      match k
      case Where => MissingCharNotOccurs(" where", Keyword(c), 1);
      case NameLike => MissingCharNotOccurs(" like", Keyword(c), 3);
      case And => MissingCharNotOccurs(" and", Keyword(c), 3);
      case PriceLoe => MissingCharNotOccurs(" <=", Keyword(c), 1);
    }
  }

  /** A `:name` token followed by punctuation holds no keyword and exactly one placeholder. */
  lemma TokenPiece(name: string, rest: string)
    requires |name| > 0 && forall i | 0 <= i < |name| :: IsIdentChar(name[i])
    requires |rest| == 0 || !IsIdentChar(rest[0])
    requires forall i | 0 <= i < |rest| :: rest[i] != ':' && rest[i] != ' '
    ensures Shows(":" + name + rest) == {}
    ensures Placeholders(":" + name + rest) == {name}
  {
    PlaceholderToken(name, rest);
    var s := ":" + name + rest;
    assert ' ' !in s by {
      assert !IsIdentChar(' ');
      forall i | 0 <= i < |s| ensures s[i] != ' ' {
        if 0 < i <= |name| {
          assert s[i] == name[i - 1];
        } else if i > |name| {
          assert s[i] == rest[i - 1 - |name|];
        }
      }
    }
    forall k ensures !Occurs(Keyword(k), s) {
      assert Keyword(k)[0] == ' ';
      MissingCharNotOccurs(Keyword(k), s, 0);
    }
  }

  /** A plain piece in front of text that opens a new token adds no keyword and no placeholder. */
  lemma PlainThen(p: string, mark: char, rest: string)
    requires mark == 'd' || mark == 'n'
    requires forall i | 0 <= i < |p| :: p[i] != 'w' && p[i] != 'k' && p[i] != '<' && p[i] != ':' && p[i] != mark
    requires |rest| > 0 && (rest[0] == ' ' || rest[0] == ':')
    ensures Shows(p + rest) == Shows(rest)
    ensures Placeholders(p + rest) == Placeholders(rest)
  {
    PlainPiece(p, mark);
    Split(p, rest);
  }

  /** A keyword in front of plain text that opens a new token shows just that keyword. */
  lemma KeywordThen(c: Clause, rest: string)
    requires |rest| > 0 && (rest[0] == ' ' || rest[0] == ':')
    requires Shows(rest) == {}
    ensures Shows(Keyword(c) + rest) == {c}
    ensures Placeholders(Keyword(c) + rest) == Placeholders(rest)
  {
    KeywordPiece(c);
    Split(Keyword(c), rest);
  }

  /** A clause's text opens a new token, shows the clause's keyword and no other, and refers to the clause's parameter. */
  ghost predicate Opens(f: string, c: Clause)
  {
    |f| > 0 && f[0] == ' ' && Shows(f) == {c} && Placeholders(f) == Param(c)
  }

  /**
   * What the lemmas about rendered queries need of a language's words: the
   * base shows no keyword and no placeholder, and each clause's text opens
   * as that clause.
   */
  ghost predicate Readable(s: Syntax)
  {
    && Shows(s.base) == {} && Placeholders(s.base) == {}
    && Opens(s.where, Where) && Opens(s.nameLike, NameLike) && Opens(s.and, And) && Opens(s.priceLoe, PriceLoe)
  }

  lemma FragmentOpens(s: Syntax, c: Clause)
    requires Readable(s)
    ensures Opens(Fragment(s, c), c)
  {
  }

  /** Both query languages' words are readable. */
  lemma DialectReadable(d: Dialect)
    ensures Readable(SyntaxOf(d))
  {
    match d
    case Sql => SqlReadable();
    case Jpql => JpqlReadable();
  }

  lemma SqlReadable()
    ensures Readable(SyntaxOf(Sql))
  {
    SqlBaseFacts();
    KeywordOpens(Where); KeywordOpens(And);
    SqlNameOpens(); SqlPriceOpens();
  }

  lemma JpqlReadable()
    ensures Readable(SyntaxOf(Jpql))
  {
    JpqlBaseFacts();
    KeywordOpens(Where); KeywordOpens(And);
    JpqlNameOpens(); JpqlPriceOpens();
  }

  lemma SqlNameOpens()
    ensures Opens(" item_name" + NameTest(" "), NameLike)
  {
    NameTestOpens(" ");
    ColumnOpens(" item_name", NameTest(" "), NameLike);
  }

  lemma SqlPriceOpens()
    ensures Opens(" price" + PriceTest(), PriceLoe)
  {
    PriceTestOpens();
    ColumnOpens(" price", PriceTest(), PriceLoe);
  }

  lemma JpqlBaseFacts()
    ensures Shows("select i from Item i") == {} && Placeholders("select i from Item i") == {}
  {
    PlainPiece("select i from Item i", 'd');
  }

  lemma JpqlNameOpens()
    ensures Opens(" i.itemName" + NameTest(""), NameLike)
  {
    NameTestOpens("");
    ColumnOpens(" i.itemName", NameTest(""), NameLike);
  }

  lemma JpqlPriceOpens()
    ensures Opens(" i.price" + PriceTest(), PriceLoe)
  {
    PriceTestOpens();
    ColumnOpens(" i.price", PriceTest(), PriceLoe);
  }

  lemma KeywordOpens(c: Clause)
    requires c == Where || c == And
    ensures Opens(Keyword(c), c)
  {
    KeywordPiece(c);
  }

  lemma SqlBaseTail()
    ensures Shows(" item_name," + " price, quantity from item") == {}
    ensures Placeholders(" item_name," + " price, quantity from item") == {}
  {
    PlainPiece(" price, quantity from item", 'd');
    PlainThen(" item_name,", 'd', " price, quantity from item");
  }

  lemma SqlBaseFacts()
    ensures Shows("select id," + (" item_name," + " price, quantity from item")) == {}
    ensures Placeholders("select id," + (" item_name," + " price, quantity from item")) == {}
  {
    SqlBaseTail();
    PlainThen("select id,", 'n', " item_name," + " price, quantity from item");
  }

  lemma ItemNameToken()
    ensures Shows(":itemName,'%')") == {} && Placeholders(":itemName,'%')") == {"itemName"}
  {
    TokenPiece("itemName", ",'%')");
    assert ":" + "itemName" + ",'%')" == ":itemName,'%')";
  }

  /** The placeholder of the name test, with the space the SQL text puts before it. */
  lemma NameToken(gap: string)
    requires gap == " " || gap == ""
    ensures Shows(gap + ":itemName,'%')") == {} && Placeholders(gap + ":itemName,'%')") == {"itemName"}
  {
    ItemNameToken();
    if gap == " " {
      PlainThen(gap, 'd', ":itemName,'%')");
    } else {
      assert gap + ":itemName,'%')" == ":itemName,'%')";
    }
  }

  lemma NameArgument(gap: string)
    requires gap == " " || gap == ""
    ensures Shows(" concat('%'," + (gap + ":itemName,'%')")) == {}
    ensures Placeholders(" concat('%'," + (gap + ":itemName,'%')")) == {"itemName"}
  {
    NameToken(gap);
    PlainThen(" concat('%',", 'd', gap + ":itemName,'%')");
  }

  /** The name test shows ` like` and refers to `itemName`. */
  lemma NameTestOpens(gap: string)
    requires gap == " " || gap == ""
    ensures Opens(NameTest(gap), NameLike)
  {
    NameArgument(gap);
    KeywordThen(NameLike, " concat('%'," + (gap + ":itemName,'%')"));
  }

  lemma MaxPriceToken()
    ensures Shows(":maxPrice") == {} && Placeholders(":maxPrice") == {"maxPrice"}
  {
    TokenPiece("maxPrice", "");
    assert ":" + "maxPrice" + "" == ":maxPrice";
  }

  lemma PriceArgument()
    ensures Shows(" " + ":maxPrice") == {} && Placeholders(" " + ":maxPrice") == {"maxPrice"}
  {
    MaxPriceToken();
    PlainThen(" ", 'd', ":maxPrice");
  }

  /** The price test shows ` <=` and refers to `maxPrice`. */
  lemma PriceTestOpens()
    ensures Opens(PriceTest(), PriceLoe)
  {
    PriceArgument();
    KeywordThen(PriceLoe, " " + ":maxPrice");
  }

  /** A column name in front of a clause's test leaves the clause's keyword and parameter as they are. */
  lemma ColumnOpens(column: string, test: string, c: Clause)
    requires |column| > 0 && column[0] == ' '
    requires forall i | 0 <= i < |column| :: column[i] != 'w' && column[i] != 'k' && column[i] != '<' && column[i] != ':' && column[i] != 'd'
    requires Opens(test, c)
    ensures Opens(column + test, c)
  {
    PlainThen(column, 'd', test);
  }

  // Facts about whole rendered queries.

  /** A rendered query starts with the base text. */
  lemma {:induction false} RenderStarts(s: Syntax, plan: seq<Clause>)
    ensures StartsWith(Render(s, plan), s.base)
  {
    if plan == [] {
      assert s.base[..|s.base|] == s.base;
    } else {
      var r, init := Render(s, plan), plan[..|plan| - 1];
      RenderStarts(s, init);
      assert r[..|s.base|] == Render(s, init)[..|s.base|];
    }
  }

  /** A rendered query shows the keyword of a clause exactly when the plan holds that clause. */
  lemma {:induction false} RenderKeywords(s: Syntax, plan: seq<Clause>)
    requires Readable(s)
    ensures Shows(Render(s, plan)) == ClauseSet(plan)
  {
    if plan != [] {
      var init, last := plan[..|plan| - 1], plan[|plan| - 1];
      RenderKeywords(s, init);
      FragmentOpens(s, last);
      Split(Render(s, init), Fragment(s, last));
    }
  }

  /** `ClauseSet` holds exactly the clauses of the plan. */
  lemma {:induction false} ClauseSetMembers(plan: seq<Clause>, c: Clause)
    ensures c in ClauseSet(plan) <==> c in plan
  {
    if plan != [] {
      var init := plan[..|plan| - 1];
      assert plan == init + [plan[|plan| - 1]];
      ClauseSetMembers(init, c);
    }
  }

  /** A rendered query refers to exactly the parameters of the plan's clauses. */
  lemma {:induction false} RenderPlaceholders(s: Syntax, plan: seq<Clause>)
    requires Readable(s)
    ensures Placeholders(Render(s, plan)) == Params(plan)
  {
    if plan != [] {
      var init, last := plan[..|plan| - 1], plan[|plan| - 1];
      RenderPlaceholders(s, init);
      FragmentOpens(s, last);
      Split(Render(s, init), Fragment(s, last));
    }
  }

  /** The keyword of a clause occurs in a rendered query exactly when the plan holds the clause. */
  lemma RenderShows(s: Syntax, plan: seq<Clause>, c: Clause)
    requires Readable(s)
    ensures Occurs(Keyword(c), Render(s, plan)) <==> c in plan
  {
    RenderKeywords(s, plan);
    assert c in AllClauses;
    assert c in Shows(Render(s, plan)) <==> Occurs(Keyword(c), Render(s, plan));
    ClauseSetMembers(plan, c);
  }

  /** The last fragment appended is a suffix of the query. */
  lemma RenderEndsWithLast(s: Syntax, plan: seq<Clause>)
    requires plan != []
    ensures EndsWith(Render(s, plan), Fragment(s, plan[|plan| - 1]))
  {
    var r, f := Render(s, plan), Fragment(s, plan[|plan| - 1]);
    assert r[|r| - |f|..] == f;
  }

  /** The SQL and the JPQL text of a plan agree in every keyword and in their placeholders. */
  lemma DialectsAgree(plan: seq<Clause>)
    ensures Shows(Render(SyntaxOf(Sql), plan)) == Shows(Render(SyntaxOf(Jpql), plan))
    ensures Placeholders(Render(SyntaxOf(Sql), plan)) == Placeholders(Render(SyntaxOf(Jpql), plan))
  {
    DialectReadable(Sql);
    DialectReadable(Jpql);
    RenderKeywords(SyntaxOf(Sql), plan);
    RenderKeywords(SyntaxOf(Jpql), plan);
    RenderPlaceholders(SyntaxOf(Sql), plan);
    RenderPlaceholders(SyntaxOf(Jpql), plan);
  }

  /** The parameters of a condition's plan: `itemName` when the name has text, `maxPrice` when a bound is given. */
  lemma PlanParams(cond: ItemSearchCond)
    ensures Params(PlanOf(cond)) ==
              (if HasText(cond.itemName) then {"itemName"} else {}) + (if cond.maxPrice.Some? then {"maxPrice"} else {})
  {
    var plan := PlanOf(cond);
    if plan != [] {
      var n := if HasText(cond.itemName) then [NameLike] else [];
      var a := if HasText(cond.itemName) && cond.maxPrice.Some? then [And] else [];
      var p := if cond.maxPrice.Some? then [PriceLoe] else [];
      assert plan == [Where] + n + a + p;
      ParamsAppend([Where], n);
      ParamsAppend([Where] + n, a);
      ParamsAppend([Where] + n + a, p);
      assert [Where][..0] == [];
      assert n != [] ==> n[..0] == [];
      assert a != [] ==> a[..0] == [];
      assert p != [] ==> p[..0] == [];
    }
  }

  /** Every fragment adds text, so a query with some clause is longer than the base. */
  lemma {:induction false} RenderLonger(s: Syntax, plan: seq<Clause>)
    requires Readable(s) && plan != []
    ensures |Render(s, plan)| > |s.base|
    decreases |plan|
  {
    FragmentOpens(s, plan[|plan| - 1]);
    if |plan| > 1 {
      RenderLonger(s, plan[..|plan| - 1]);
    }
  }

  /**
   * The query built for a condition, in either language: it starts with the
   * base text and equals it exactly when neither filter is present;
   * ` where` shows exactly when some filter is present, the LIKE test
   * exactly when the name has text, ` and` exactly when both filters are
   * present, the price bound exactly when it is given and then as the last
   * fragment; and it refers to exactly the parameters of the present
   * filters.
   */
  lemma QueryShape(s: Syntax, cond: ItemSearchCond)
    requires Readable(s)
    ensures var q, hasName, hasPrice := Render(s, PlanOf(cond)), HasText(cond.itemName), cond.maxPrice.Some?;
      && StartsWith(q, s.base)
      && (q == s.base <==> !hasName && !hasPrice)
      && (Occurs(" where", q) <==> hasName || hasPrice)
      && (Occurs(" like", q) <==> hasName)
      && (Occurs(" and", q) <==> hasName && hasPrice)
      && (Occurs(" <=", q) <==> hasPrice)
      && (hasPrice ==> EndsWith(q, Fragment(s, PriceLoe)))
      && Placeholders(q) == (if hasName then {"itemName"} else {}) + (if hasPrice then {"maxPrice"} else {})
  {
    var plan := PlanOf(cond);
    RenderStarts(s, plan);
    RenderPlaceholders(s, plan);
    RenderShows(s, plan, Where);
    RenderShows(s, plan, NameLike);
    RenderShows(s, plan, And);
    RenderShows(s, plan, PriceLoe);
    PlanParams(cond);
    if plan != [] {
      RenderLonger(s, plan);
      RenderEndsWithLast(s, plan);
    }
  }

  /** The placeholders of a condition's query: `itemName` when the name has text, `maxPrice` when a bound is given. */
  lemma QueryPlaceholders(s: Syntax, cond: ItemSearchCond)
    requires Readable(s)
    ensures Placeholders(Render(s, PlanOf(cond))) ==
              (if HasText(cond.itemName) then {"itemName"} else {}) + (if cond.maxPrice.Some? then {"maxPrice"} else {})
  {
    RenderPlaceholders(s, PlanOf(cond));
    PlanParams(cond);
  }

  /** Binding a condition's values binds every parameter its query refers to, and none of them to null. */
  lemma BindsPlaceholders(names: set<string>, cond: ItemSearchCond, params: map<string, SqlValue>)
    requires names == (if HasText(cond.itemName) then {"itemName"} else {}) + (if cond.maxPrice.Some? then {"maxPrice"} else {})
    requires BindsCond(params, cond)
    ensures forall n | n in names :: n in params && params[n] != Null
  {
  }

  /** `s` when `b` holds, nothing otherwise: one optional `+=` of a builder. */
  function When(b: bool, s: string): string
  {
    if b then s else []
  }

  /**
   * The rendered plan of a condition is the base followed by each optional
   * fragment in turn, which is how the builders spell it.
   */
  lemma RenderText(s: Syntax, hasName: bool, hasPrice: bool)
    ensures Render(s, Plan(hasName, hasPrice)) ==
              s.base + When(hasName || hasPrice, Fragment(s, Where)) + When(hasName, Fragment(s, NameLike))
              + When(hasName && hasPrice, Fragment(s, And)) + When(hasPrice, Fragment(s, PriceLoe))
  {
    if hasName && hasPrice {
      RenderBoth(s);
    } else if hasName {
      RenderOne(s, NameLike);
    } else if hasPrice {
      RenderOne(s, PriceLoe);
    }
  }

  lemma RenderOne(s: Syntax, c: Clause)
    ensures Render(s, [Where, c]) == s.base + Fragment(s, Where) + Fragment(s, c)
  {
    assert [Where][..0] == [];
    assert Render(s, [Where]) == s.base + Fragment(s, Where);
    assert [Where, c][..1] == [Where];
  }

  lemma RenderBoth(s: Syntax)
    ensures Render(s, [Where, NameLike, And, PriceLoe]) ==
              s.base + Fragment(s, Where) + Fragment(s, NameLike) + Fragment(s, And) + Fragment(s, PriceLoe)
  {
    assert [Where, NameLike, And, PriceLoe][..3] == [Where, NameLike, And];
    assert [Where, NameLike, And][..2] == [Where, NameLike];
    RenderOne(s, NameLike);
  }

  /**
   * The text both `findAll` builders grow with `+=`: the base, ` where` if
   * the name has text or a bound is given, the name test if the name has
   * text (which raises `andFlag`), then, if a bound is given, ` and` when
   * `andFlag` is up followed by the price bound.
   */
  method BuildQuery(s: Syntax, cond: ItemSearchCond) returns (query: string)
    ensures query == Render(s, PlanOf(cond))
  {
    var itemName, maxPrice := cond.itemName, cond.maxPrice;
    query := s.base;

    if HasText(itemName) || maxPrice.Some? {
      query := query + Fragment(s, Where);
    }

    var andFlag := false;
    if HasText(itemName) {
      query := query + Fragment(s, NameLike);
      andFlag := true;
    }

    if maxPrice.Some? {
      if andFlag {
        query := query + Fragment(s, And);
      }
      query := query + Fragment(s, PriceLoe);
    }

    RenderText(s, HasText(itemName), maxPrice.Some?);
  }
}
