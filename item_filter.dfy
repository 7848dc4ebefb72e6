/**
 * What a search condition means. `Matches` states the filter directly:
 * name containment and an inclusive price bound, each applied only when
 * present. The queries themselves are conjunctions of `Predicate`s, the
 * terms a WHERE clause or a QueryDSL `BooleanBuilder` is made of, and the
 * name term is an SQL LIKE pattern; `ConjunctsMeaning` ties the two views
 * together.
 */
module ItemFilter {
  import opened Wrappers
  import opened Text
  import opened Domain

  /** An item passes the condition: a name with text must occur in the item's name, a price bound must not be exceeded. */
  ghost predicate Matches(v: ItemValue, cond: ItemSearchCond)
  {
    && (HasText(cond.itemName) ==> v.itemName.Some? && Occurs(cond.itemName.value, v.itemName.value))
    && (cond.maxPrice.Some? ==> v.price.Some? && v.price.value <= cond.maxPrice.value)
  }

  /** The stored items that pass the condition, compared as a set since the queries have no ORDER BY. */
  ghost function Filter(rows: map<int, ItemValue>, cond: ItemSearchCond): set<ItemValue>
  {
    set v | v in rows.Values && Matches(v, cond)
  }

  /** With neither filter every stored item is returned. */
  lemma FilterUnfiltered(rows: map<int, ItemValue>, cond: ItemSearchCond)
    requires !HasText(cond.itemName) && cond.maxPrice.None?
    ensures Filter(rows, cond) == rows.Values
  {
  }

  /** A null or blank name filters nothing: it behaves exactly like an absent one. */
  lemma BlankNameIgnored(rows: map<int, ItemValue>, cond: ItemSearchCond)
    requires !HasText(cond.itemName)
    ensures Filter(rows, cond) == Filter(rows, cond.(itemName := None))
  {
  }

  /** With only a name, an item is returned iff its name contains that name. */
  lemma FilterByName(rows: map<int, ItemValue>, cond: ItemSearchCond, v: ItemValue)
    requires HasText(cond.itemName) && cond.maxPrice.None?
    ensures v in Filter(rows, cond) <==>
              v in rows.Values && v.itemName.Some? && Occurs(cond.itemName.value, v.itemName.value)
  {
  }

  /** With only a bound, an item is returned iff its price is at most the bound. */
  lemma FilterByPrice(rows: map<int, ItemValue>, cond: ItemSearchCond, v: ItemValue)
    requires !HasText(cond.itemName) && cond.maxPrice.Some?
    ensures v in Filter(rows, cond) <==>
              v in rows.Values && v.price.Some? && v.price.value <= cond.maxPrice.value
  {
  }

  /** With both filters the result is the intersection of the two single-filter results. */
  lemma FilterBoth(rows: map<int, ItemValue>, cond: ItemSearchCond)
    ensures Filter(rows, cond) == Filter(rows, cond.(maxPrice := None)) * Filter(rows, cond.(itemName := None))
  {
  }

  /** The result is drawn from the stored items, and adding a filter never enlarges it. */
  lemma FilterNarrows(rows: map<int, ItemValue>, cond: ItemSearchCond)
    ensures Filter(rows, cond) <= Filter(rows, cond.(maxPrice := None))
    ensures Filter(rows, cond) <= Filter(rows, cond.(itemName := None))
    ensures Filter(rows, cond.(itemName := None, maxPrice := None)) == rows.Values
  {
  }

  /** One conjunct of a query's WHERE clause: `itemName like pattern`, or `price <= bound`. */
  datatype Predicate = Like(pattern: string) | Loe(bound: int)

  /**
   * SQL LIKE: `%` stands for any run of characters, `_` for exactly one,
   * every other character for itself. A NULL column matches no pattern.
   */
  predicate LikeMatch(pattern: string, s: string)
    decreases |pattern| + |s|
  {
    if |pattern| == 0 then |s| == 0
    else if pattern[0] == '%' then LikeMatch(pattern[1..], s) || (|s| > 0 && LikeMatch(pattern, s[1..]))
    else |s| > 0 && (pattern[0] == '_' || pattern[0] == s[0]) && LikeMatch(pattern[1..], s[1..])
  }

  predicate Holds(p: Predicate, v: ItemValue)
  {
    match p
    case Like(pattern) => v.itemName.Some? && LikeMatch(pattern, v.itemName.value)
    case Loe(bound) => v.price.Some? && v.price.value <= bound
  }

  /** An empty conjunction holds of every item, as a WHERE clause left out does. */
  predicate HoldsAll(ps: seq<Predicate>, v: ItemValue)
  {
    forall i :: 0 <= i < |ps| ==> Holds(ps[i], v)
  }

  /** The rows a conjunction selects. */
  function Select(rows: map<int, ItemValue>, ps: seq<Predicate>): set<ItemValue>
  {
    set v | v in rows.Values && HoldsAll(ps, v)
  }

  /** The pattern the name filter is searched with: the name between two `%`. */
  function NamePattern(name: string): string
  {
    "%" + name + "%"
  }

  /** The conjunction a condition stands for: the LIKE term when the name has text, then the bound when present. */
  function Conjuncts(cond: ItemSearchCond): (ps: seq<Predicate>)
    ensures |ps| <= 2
    ensures ps == [] <==> !HasText(cond.itemName) && cond.maxPrice.None?
  {
    (if HasText(cond.itemName) then [Like(NamePattern(cond.itemName.value))] else [])
    + (if cond.maxPrice.Some? then [Loe(cond.maxPrice.value)] else [])
  }

  /** The name holds neither of LIKE's wildcards, `%` and `_`. */
  predicate NoPatternChars(name: Option<string>)
  {
    name.None? || forall c :: c in name.value ==> c != '%' && c != '_'
  }

  /** The escape character of a LIKE written by hand into SQL or JPQL text: the database default, a backslash. */
  const DatabaseEscape: char := '\\'

  /** The escape character QueryDSL declares (`escape '!'`) in the JPQL it renders for `like`. */
  const QueryDslEscape: char := '!'

  /** A LIKE whose escape character is `escape` takes the name literally: it holds no `%`, no `_` and no `escape`. */
  predicate NoWildcards(name: Option<string>, escape: char)
  {
    NoPatternChars(name) && (name.None? || escape !in name.value)
  }

  lemma {:induction false} LikeTrailingPercent(s: string)
    ensures LikeMatch("%", s)
    decreases |s|
  {
    assert "%"[1..] == "";
    if |s| > 0 {
      LikeTrailingPercent(s[1..]);
    }
  }

  /** A literal followed by `%` matches exactly the strings that start with the literal. */
  lemma {:induction false} LikeLiteralPrefix(x: string, s: string)
    requires forall c :: c in x ==> c != '%' && c != '_'
    ensures LikeMatch(x + "%", s) <==> StartsWith(s, x)
    decreases |x|
  {
    if |x| == 0 {
      assert x + "%" == "%";
      LikeTrailingPercent(s);
    } else {
      var p := x + "%";
      assert p[0] == x[0] && x[0] in x;
      assert p[1..] == x[1..] + "%";
      assert forall c :: c in x[1..] ==> c in x;
      if |s| > 0 {
        LikeLiteralPrefix(x[1..], s[1..]);
        assert StartsWith(s, x) <==> s[0] == x[0] && StartsWith(s[1..], x[1..]) by {
          if StartsWith(s, x) {
            assert s[..|x|][0] == s[0];
            assert s[1..][..|x| - 1] == s[..|x|][1..];
          }
          if s[0] == x[0] && StartsWith(s[1..], x[1..]) {
            assert s[..|x|] == [s[0]] + s[1..][..|x| - 1];
          }
        }
      }
    }
  }

  /** A leading `%` lets the rest of the pattern match any suffix. */
  lemma {:induction false} LikeLeadingPercent(q: string, s: string)
    ensures LikeMatch("%" + q, s) <==> exists k :: 0 <= k <= |s| && LikeMatch(q, s[k..])
    decreases |s|
  {
    var p := "%" + q;
    assert p[0] == '%' && p[1..] == q;
    assert s[0..] == s;
    if |s| > 0 {
      LikeLeadingPercent(q, s[1..]);
      if exists k :: 0 <= k <= |s| && LikeMatch(q, s[k..]) {
        var k :| 0 <= k <= |s| && LikeMatch(q, s[k..]);
        if k > 0 {
          assert s[1..][k - 1..] == s[k..];
        }
      }
      if exists k :: 0 <= k <= |s[1..]| && LikeMatch(q, s[1..][k..]) {
        var k :| 0 <= k <= |s[1..]| && LikeMatch(q, s[1..][k..]);
        assert s[1..][k..] == s[k + 1..];
      }
    }
  }

  /** Searching with `%name%` is substring containment, provided the name holds no LIKE wildcard. */
  lemma LikeContains(name: string, s: string)
    requires forall c :: c in name ==> c != '%' && c != '_'
    ensures LikeMatch(NamePattern(name), s) <==> Occurs(name, s)
  {
    assert NamePattern(name) == "%" + (name + "%");
    LikeLeadingPercent(name + "%", s);
    if Occurs(name, s) {
      var i :| OccursAt(name, s, i);
      assert s[i..][..|name|] == s[i..i + |name|];
      LikeLiteralPrefix(name, s[i..]);
    }
    if LikeMatch(NamePattern(name), s) {
      var k :| 0 <= k <= |s| && LikeMatch(name + "%", s[k..]);
      LikeLiteralPrefix(name, s[k..]);
      assert s[k..][..|name|] == s[k..k + |name|];
      assert OccursAt(name, s, k);
    }
  }

  /** The conjunction of a condition holds of an item exactly when the item matches the condition. */
  lemma ConjunctsMeaning(cond: ItemSearchCond, v: ItemValue)
    requires NoPatternChars(cond.itemName)
    ensures HoldsAll(Conjuncts(cond), v) <==> Matches(v, cond)
  {
    var name: seq<Predicate> := if HasText(cond.itemName) then [Like(NamePattern(cond.itemName.value))] else [];
    var price: seq<Predicate> := if cond.maxPrice.Some? then [Loe(cond.maxPrice.value)] else [];
    assert Conjuncts(cond) == name + price;
    HoldsAllAppend(name, price, v);
    assert HasText(cond.itemName) ==> (HoldsAll(name, v) <==> Holds(name[0], v));
    assert cond.maxPrice.Some? ==> (HoldsAll(price, v) <==> Holds(price[0], v));
    if HasText(cond.itemName) && v.itemName.Some? {
      LikeContains(cond.itemName.value, v.itemName.value);
    }
  }

  lemma HoldsAllAppend(a: seq<Predicate>, b: seq<Predicate>, v: ItemValue)
    ensures HoldsAll(a + b, v) <==> HoldsAll(a, v) && HoldsAll(b, v)
  {
    if HoldsAll(a, v) && HoldsAll(b, v) {
      forall i | 0 <= i < |a + b| ensures Holds((a + b)[i], v) {
        if i >= |a| { assert (a + b)[i] == b[i - |a|]; }
      }
    }
    if HoldsAll(a + b, v) {
      forall i | 0 <= i < |a| ensures Holds(a[i], v) {
        assert (a + b)[i] == a[i];
      }
      forall i | 0 <= i < |b| ensures Holds(b[i], v) {
        assert (a + b)[|a| + i] == b[i];
      }
    }
  }

  /** Selecting with the conjunction of a condition returns exactly the filtered items. */
  lemma SelectIsFilter(rows: map<int, ItemValue>, cond: ItemSearchCond)
    requires NoPatternChars(cond.itemName)
    ensures Select(rows, Conjuncts(cond)) == Filter(rows, cond)
  {
    forall v | v in rows.Values
      ensures HoldsAll(Conjuncts(cond), v) <==> Matches(v, cond)
    {
      ConjunctsMeaning(cond, v);
    }
  }
}
