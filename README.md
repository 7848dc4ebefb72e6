# Item store and dynamic item search, in Dafny

This project models the core of a small Spring item service. An `Item` has
an id, a name, a price and a quantity, and every field may be null. It is
stored in a table `item` whose key comes from an IDENTITY column. Three
repositories and a service act on the store:

- `JdbcTemplateItemRepositoryV2` writes SQL by hand against table rows.
- `JpaItemRepository` writes JPQL against entities managed by an `EntityManager`.
- `JpaItemRepositoryV3` states the search as a QueryDSL `BooleanBuilder`.
- `ItemServiceV2` does lookup-or-throw updates and delegates saving, lookup and search.

The centre of the model is the dynamic `findAll` query. The SQL and the
JPQL builders grow a text with `+=`:

1. the base select;
2. ` where` when some filter is present;
3. the name `like` test when the name has text, which raises `andFlag`;
4. ` and` when `andFlag` is up and a price bound follows;
5. the price bound.

`DynamicQuery` models this once. A `Plan` lists the clauses a condition
calls for. A `Syntax` holds one language's words: `SyntaxOf(Sql)` gives the
SQL words and `SyntaxOf(Jpql)` the JPQL words. `Render` spells a plan in a
`Syntax`. `BuildQuery` is the imperative builder shared by both
repositories, proved equal to `Render`.

The lemmas read the rendered text back. The keywords ` where`, ` like`,
` and` and ` <=` occur in it exactly when the plan holds their clauses. Its
`:name` placeholders are exactly the parameters the plan refers to.
`Denote` reads each clause as the predicate the database evaluates once
the parameters are bound. The result is the same conjunction
(`Conjuncts`) that the QueryDSL repository builds. For a name with no LIKE
wildcard, that conjunction is exactly the search condition `Matches`: name
containment and an inclusive price bound, each applied only when present.

The JDBC table is a `map<int, ItemValue>` of row values plus the next key.
The JPA repositories and the service share an `EntityManager` class that
holds the managed `Item` objects by key. Its `Find` hands out the managed
object itself, so the setters an update calls change the stored item. All
calls share this one persistence context, as within a single transaction.
Query results are sets, since none of the queries has an ORDER BY.

## Model

| member | source | states |
|---|---|---|
| Domain.Item.Blank | src/main/java/hello/itemservice/domain/Item.java:34-35 | the no-argument constructor leaves all four fields unset |
| Domain.Item.constructor | src/main/java/hello/itemservice/domain/Item.java:37-41 | the three-argument constructor stores name, price and quantity as given, and the id is unset until the store assigns one |
| Domain.Item.SetId | src/main/java/hello/itemservice/domain/Item.java:18-19 | the generated id setter changes the id and no other field |
| Domain.Item.SetItemName | src/main/java/hello/itemservice/domain/Item.java:10 | the generated setter changes the name and no other field |
| Domain.Item.SetPrice | src/main/java/hello/itemservice/domain/Item.java:10 | the generated setter changes the price and no other field |
| Domain.Item.SetQuantity | src/main/java/hello/itemservice/domain/Item.java:10 | the generated setter changes the quantity and no other field |
| Text.HasText | src/main/java/hello/itemservice/repository/jdbctemplate/JdbcTemplateItemRepositoryV2.java:94 | a name with text is non-null and non-empty; a name whose first character is not whitespace has text |
| ItemFilter.FilterUnfiltered | src/main/java/hello/itemservice/repository/jpa/JpaItemRepositoryV3.java:58-72 | with neither filter every stored item is returned |
| ItemFilter.BlankNameIgnored | src/main/java/hello/itemservice/repository/jpa/JpaItemRepositoryV3.java:60 | a null or whitespace-only name filters exactly as an absent one |
| ItemFilter.FilterByName | src/main/java/hello/itemservice/repository/jpa/JpaItemRepositoryV3.java:60-62 | with only a name, an item is returned iff it is stored and its name contains the given name |
| ItemFilter.FilterByPrice | src/main/java/hello/itemservice/repository/jpa/JpaItemRepositoryV3.java:64-66 | with only a bound, an item is returned iff it is stored and its price is at most the bound |
| ItemFilter.FilterBoth | src/main/java/hello/itemservice/repository/jpa/JpaItemRepositoryV3.java:58-66 | with both filters the result is the intersection of the two single-filter results |
| ItemFilter.FilterNarrows | src/main/java/hello/itemservice/repository/jpa/JpaItemRepositoryV3.java:58-72 | adding a filter never enlarges the result, and with no filter the result is all stored items |
| ItemFilter.Conjuncts | src/main/java/hello/itemservice/repository/jpa/JpaItemRepositoryV3.java:58-66 | the builder has at most two terms, and it is empty exactly when neither filter is present |
| ItemFilter.LikeContains | src/main/java/hello/itemservice/repository/jpa/JpaItemRepositoryV3.java:61 | LIKE against `%name%` holds exactly when the name occurs in the value, for a name without `%` or `_` |
| ItemFilter.ConjunctsMeaning | src/main/java/hello/itemservice/repository/jpa/JpaItemRepositoryV3.java:58-66 | the conjunction of a condition holds of an item iff the item matches the condition, for a name without `%` or `_` |
| ItemFilter.SelectIsFilter | src/main/java/hello/itemservice/repository/jdbctemplate/JdbcTemplateItemRepositoryV2.java:94-111 | selecting rows with the conjunction gives exactly the filtered rows, for a name without `%` or `_` |
| DynamicQuery.Plan | src/main/java/hello/itemservice/repository/jdbctemplate/JdbcTemplateItemRepositoryV2.java:94-109 | ` where` leads iff some filter is present; the name test iff the name has text; ` and` iff both filters are present, and then it sits between them; the price bound iff given, and then last |
| DynamicQuery.DialectReadable | src/main/java/hello/itemservice/repository/jdbctemplate/JdbcTemplateItemRepositoryV2.java:92-108 | in SQL and in JPQL the base shows no keyword or placeholder, and each appended fragment opens with a space, shows only its own keyword and refers only to its own parameter |
| DynamicQuery.RenderStarts | src/main/java/hello/itemservice/repository/jdbctemplate/JdbcTemplateItemRepositoryV2.java:92 | a rendered query begins with the base select |
| DynamicQuery.RenderKeywords | src/main/java/hello/itemservice/repository/jdbctemplate/JdbcTemplateItemRepositoryV2.java:94-109 | the keywords shown by a rendered query are exactly the clauses of its plan |
| DynamicQuery.RenderShows | src/main/java/hello/itemservice/repository/jdbctemplate/JdbcTemplateItemRepositoryV2.java:94-109 | a clause's keyword occurs in the query iff the plan holds the clause |
| DynamicQuery.RenderPlaceholders | src/main/java/hello/itemservice/repository/jpa/JpaItemRepository.java:80-90 | the `:name` placeholders of a rendered query are exactly the parameters of its clauses |
| DynamicQuery.RenderEndsWithLast | src/main/java/hello/itemservice/repository/jdbctemplate/JdbcTemplateItemRepositoryV2.java:104-109 | the last fragment appended is a suffix of the query |
| DynamicQuery.RenderLonger | src/main/java/hello/itemservice/repository/jdbctemplate/JdbcTemplateItemRepositoryV2.java:94-109 | a query with some clause is longer than the base |
| DynamicQuery.DialectsAgree | src/main/java/hello/itemservice/repository/jpa/JpaItemRepository.java:75-90 | for every plan, the SQL and the JPQL text show the same keywords and the same placeholders |
| DynamicQuery.PlanParams | src/main/java/hello/itemservice/repository/jpa/JpaItemRepository.java:80-89 | a condition's plan refers to `itemName` iff the name has text and to `maxPrice` iff a bound is given |
| DynamicQuery.QueryShape | src/main/java/hello/itemservice/repository/jdbctemplate/JdbcTemplateItemRepositoryV2.java:92-109 | the built query starts with the base and equals it iff neither filter is present; ` where`, ` like`, ` and` and ` <=` occur iff, respectively, some filter, the name, both filters, the bound are present; a bound makes the price fragment the suffix; the placeholders are those of the present filters |
| DynamicQuery.QueryPlaceholders | src/main/java/hello/itemservice/repository/jpa/JpaItemRepository.java:80-89 | the placeholders of a condition's query are `itemName` iff the name has text and `maxPrice` iff a bound is given |
| DynamicQuery.BindsPlaceholders | src/main/java/hello/itemservice/repository/jdbctemplate/JdbcTemplateItemRepositoryV2.java:90 | binding the condition's values binds every parameter its query refers to, none of them to null |
| DynamicQuery.PlanDenotesConjuncts | src/main/java/hello/itemservice/repository/jpa/JpaItemRepository.java:94-101 | with the condition's values bound, the WHERE clause asks the same conjunction as the QueryDSL builder |
| DynamicQuery.RenderText | src/main/java/hello/itemservice/repository/jdbctemplate/JdbcTemplateItemRepositoryV2.java:92-109 | the rendered plan is the base followed by each optional fragment, in the builders' order |
| DynamicQuery.BuildQuery | src/main/java/hello/itemservice/repository/jdbctemplate/JdbcTemplateItemRepositoryV2.java:92-109 | the text grown with `+=` under `andFlag` is the rendered plan of the condition |
| Persistence.EntityManager.Query | src/main/java/hello/itemservice/repository/jpa/JpaItemRepositoryV3.java:68-72 | a query returns only managed items |
| Persistence.EntityManager.QueryMembers | src/main/java/hello/itemservice/repository/jpa/JpaItemRepository.java:94-101 | a managed item is returned iff its current values satisfy every predicate |
| Persistence.EntityManager.QueryAll | src/main/java/hello/itemservice/repository/jpa/JpaItemRepositoryV3.java:58-72 | an empty builder returns every managed item |
| Persistence.EntityManager.QueryMatches | src/main/java/hello/itemservice/repository/jpa/JpaItemRepositoryV3.java:68-72 | a query with a condition's conjunction returns a managed item iff it matches the condition, for a name without `%` or `_` |
| Persistence.EntityManager.Distinct | src/main/java/hello/itemservice/domain/Item.java:18-19 | distinct keys hold distinct objects, since each object carries its key as id |
| Persistence.EntityManager.OthersDistinct | src/main/java/hello/itemservice/repository/jpa/JpaItemRepository.java:44-47 | the entity an update changes is not stored under any other key |
| Persistence.EntityManager.NewIsUnmanaged | src/main/java/hello/itemservice/repository/jpa/JpaItemRepository.java:38 | an item with no id is not managed yet |
| Persistence.EntityManager.constructor | src/main/java/hello/itemservice/repository/jpa/JpaItemRepository.java:34 | an empty persistence context whose first key is 1 |
| Persistence.EntityManager.Persist | src/main/java/hello/itemservice/repository/jpa/JpaItemRepository.java:38 | the item becomes managed under the next key, which is written into its id; no other stored item changes |
| Persistence.EntityManager.Find | src/main/java/hello/itemservice/repository/jpa/JpaItemRepository.java:58 | the managed object under the key, or nothing exactly when the key is absent |
| JdbcTemplateRepository.BeanProperties | src/main/java/hello/itemservice/repository/jdbctemplate/JdbcTemplateItemRepositoryV2.java:90 | both properties of the condition are bound, null or not |
| JdbcTemplateRepository.FindAllQuery | src/main/java/hello/itemservice/repository/jdbctemplate/JdbcTemplateItemRepositoryV2.java:86-109 | the SQL is the rendered plan of the condition, and every placeholder in it is bound to a non-null value |
| JdbcTemplateRepository.JdbcTemplateItemRepositoryV2.constructor | src/main/java/hello/itemservice/repository/jdbctemplate/JdbcTemplateItemRepositoryV2.java:30-32 | an empty table whose first generated key is 1 |
| JdbcTemplateRepository.JdbcTemplateItemRepositoryV2.Save | src/main/java/hello/itemservice/repository/jdbctemplate/JdbcTemplateItemRepositoryV2.java:34-53 | a fresh key gets a row with the item's fields; the key is written into the item's id, its other fields are unchanged, and the same item is returned |
| JdbcTemplateRepository.JdbcTemplateItemRepositoryV2.Update | src/main/java/hello/itemservice/repository/jdbctemplate/JdbcTemplateItemRepositoryV2.java:55-71 | the row with that key is fully overwritten from the payload and keeps its id; with no such row nothing changes |
| JdbcTemplateRepository.JdbcTemplateItemRepositoryV2.FindById | src/main/java/hello/itemservice/repository/jdbctemplate/JdbcTemplateItemRepositoryV2.java:73-83 | empty exactly when no row has that key, otherwise a new item holding the row's values |
| JdbcTemplateRepository.JdbcTemplateItemRepositoryV2.DistinctRows | src/main/java/hello/itemservice/repository/jdbctemplate/JdbcTemplateItemRepositoryV2.java:111 | rows under distinct keys are distinct values, so the rows `findAll` selects are all kept in its result set |
| JdbcTemplateRepository.JdbcTemplateItemRepositoryV2.FindAll | src/main/java/hello/itemservice/repository/jdbctemplate/JdbcTemplateItemRepositoryV2.java:85-112 | the rows satisfying the conjunction the SQL denotes, all of them stored rows; for a name without `%`, `_` or the escape `\`, exactly the rows matching the condition |
| JpaRepository.SetParameters | src/main/java/hello/itemservice/repository/jpa/JpaItemRepository.java:95-100 | `itemName` is set iff the name has text and `maxPrice` iff a bound is given, each to the condition's non-null value |
| JpaRepository.FindAllQuery | src/main/java/hello/itemservice/repository/jpa/JpaItemRepository.java:69-100 | the JPQL is the rendered plan of the condition, and the parameters set are exactly its placeholders, each non-null |
| JpaRepository.JpaItemRepository.constructor | src/main/java/hello/itemservice/repository/jpa/JpaItemRepository.java:27-34 | the repository works on the given entity manager |
| JpaRepository.JpaItemRepository.Save | src/main/java/hello/itemservice/repository/jpa/JpaItemRepository.java:36-40 | the item is managed under a fresh key written into its id; the other fields are unchanged and the same item is returned; the IDENTITY counter moves on by one, so successive saves get consecutive keys |
| JpaRepository.JpaItemRepository.Update | src/main/java/hello/itemservice/repository/jpa/JpaItemRepository.java:42-54 | a present entity takes the payload's three fields and keeps its id, and no other entity changes; an absent key ends in a null dereference with nothing changed |
| JpaRepository.JpaItemRepository.FindById | src/main/java/hello/itemservice/repository/jpa/JpaItemRepository.java:56-60 | empty exactly when the key is absent, otherwise the managed entity |
| JpaRepository.JpaItemRepository.FindAll | src/main/java/hello/itemservice/repository/jpa/JpaItemRepository.java:62-102 | the managed items satisfying the conjunction the JPQL denotes; for a name without `%`, `_` or the escape `\`, a managed item is returned iff it matches the condition |
| JpaRepositoryV3.BuildWhere | src/main/java/hello/itemservice/repository/jpa/JpaItemRepositoryV3.java:55-66 | the builder is the condition's conjunction, which holds of an item iff the item matches the condition, for a name without `%`, `_` or QueryDSL's escape `!` |
| JpaRepositoryV3.JpaItemRepositoryV3.constructor | src/main/java/hello/itemservice/repository/jpa/JpaItemRepositoryV3.java:28-31 | the repository works on the given entity manager |
| JpaRepositoryV3.JpaItemRepositoryV3.Save | src/main/java/hello/itemservice/repository/jpa/JpaItemRepositoryV3.java:33-37 | the item is managed under a fresh key written into its id; the other fields are unchanged and the same item is returned; the IDENTITY counter moves on by one, so successive saves get consecutive keys |
| JpaRepositoryV3.JpaItemRepositoryV3.Update | src/main/java/hello/itemservice/repository/jpa/JpaItemRepositoryV3.java:39-45 | a present entity takes the payload's three fields and keeps its id, and no other entity changes; an absent key ends in a null dereference with nothing changed |
| JpaRepositoryV3.JpaItemRepositoryV3.FindById | src/main/java/hello/itemservice/repository/jpa/JpaItemRepositoryV3.java:47-51 | empty exactly when the key is absent, otherwise the managed entity |
| JpaRepositoryV3.JpaItemRepositoryV3.FindAll | src/main/java/hello/itemservice/repository/jpa/JpaItemRepositoryV3.java:53-73 | the managed items satisfying the builder; all of them when neither filter is present; for a name without `%`, `_` or QueryDSL's escape `!`, exactly the matching ones |
| ItemService.ItemServiceV2.constructor | src/main/java/hello/itemservice/service/ItemServiceV2.java:16-24 | the service works on the store shared by both repositories |
| ItemService.ItemServiceV2.Save | src/main/java/hello/itemservice/service/ItemServiceV2.java:26-29 | a new item is stored under a fresh key written into its id, and the same item is returned; the IDENTITY counter moves on by one, so successive saves get consecutive keys |
| ItemService.ItemServiceV2.Update | src/main/java/hello/itemservice/service/ItemServiceV2.java:31-37 | an absent id throws `NoSuchElementException` with nothing changed; otherwise the item takes exactly the payload's three fields, keeps its id, and every other item is unchanged |
| ItemService.ItemServiceV2.FindById | src/main/java/hello/itemservice/service/ItemServiceV2.java:39-42 | empty exactly when the key is absent, otherwise the stored item |
| ItemService.ItemServiceV2.FindItems | src/main/java/hello/itemservice/service/ItemServiceV2.java:44-47 | the stored items satisfying the condition's conjunction; for a name without `%`, `_` or QueryDSL's escape `!`, exactly the matching ones |
| ItemService.SaveThenFindById | src/main/java/hello/itemservice/service/ItemServiceV2.java:26-42 | looking up the id `save` returned finds that same item, with the fields it was saved with |

## Left out

- Database execution is not modelled: the `NamedParameterJdbcTemplate`, `EntityManager` and `JPAQueryFactory` calls, generated-key retrieval, dirty checking and flush at commit, and `@Transactional` boundaries and rollback. The store is a map, and the next generated key is a counter starting at 1.
- Parsing of the query text by the database is not modelled. `Denote` reads the clause plan the text was rendered from as the predicates the database evaluates. The lemmas about keywords and placeholders tie that plan to the text.
- SQL LIKE: `LikeMatch` models `%` and `_`, but not escape characters, case folding or collation. The hand-written SQL and JPQL texts use the database's default escape `\`. QueryDSL's `like` renders `escape '!'` into its JPQL; that is library behaviour outside this code, and is written down as the constant `QueryDslEscape`. So the "exactly the matching items" clauses hold for names without `%`, `_` and the escape of the path taken: `\` for the JDBC and JPA `FindAll`, and `!` for `JpaRepositoryV3.JpaItemRepositoryV3.FindAll`, `JpaRepositoryV3.BuildWhere` and `ItemService.ItemServiceV2.FindItems`.
- SQL three-valued logic is not modelled. A null name or price satisfies no predicate, which is the outcome NULL gives in a WHERE clause.
- Integer widths are not modelled: `Long` ids and `Integer` prices and quantities are unbounded integers. The `length = 10` column limit on the name is enforced by the database and is not modelled.
- The order of `findAll` results is not modelled. None of the queries has an ORDER BY, so results are sets. Under each store's invariant, rows and entities under distinct keys are distinct (`DistinctRows`, `EntityManager.Distinct`), so the sets lose no duplicate rows.
- JdbcTemplateRepository.JdbcTemplateItemRepositoryV2.FindAll: returns the selected row values, not the `Item` objects the row mapper builds for them; `FindById` shows that mapping.
- JpaRepository.JpaItemRepository.Save: requires an item with no id. Persisting an already managed item, or a detached one that has an id, is JPA library behaviour and is not modelled.
- JpaRepositoryV3.JpaItemRepositoryV3.Save: requires an item with no id, for the same reason as `JpaItemRepository.Save`: `persist` of a managed or detached item is not modelled.
- ItemService.ItemServiceV2.Save: requires an item with no id. For an item that has one, Spring Data's `save` would `merge` it and return a different managed instance; that path is not modelled.
- One persistence context: every call in the model works on one `EntityManager`, as if all of them ran in a single transaction. In the program each repository and service method is its own `@Transactional` call (`ItemServiceV2.java:17`, `JpaItemRepository.java:26`, `JpaItemRepositoryV3.java:20`). Once `save` commits, the saved object is detached. A later `findById` returns a new instance, and a later `update` changes that other instance, not the caller's object. The model's statements about object identity therefore hold only within one transaction: an update changes an object a caller obtained earlier, and `findById` returns the very object saved. What is stored (`Contents()`) agrees in both readings for any sequence of save, update, findById and findAll calls. It does not agree when a caller calls a setter on an object that save returned or findById handed out. In the model that setter changes `Contents()`; in the program it changes a detached object and no row.
- ItemService.SaveThenFindById: `found == Some(item)` states object identity, which holds only when save and lookup run in one transaction. Across two transactions only the values agree: the found item holds `item.Value()`.
- Null ids and a null condition are not modelled: ids are `int` and the condition is always present. In the program, `findById(null)` on the JDBC repository throws at `Map.of` (`JdbcTemplateItemRepositoryV2.java:77`). `em.find` with a null id throws (`JpaItemRepository.java:44` and `:58`, `JpaItemRepositoryV3.java:41` and `:49`). The JDBC `update` with a null id matches no row (`JdbcTemplateItemRepositoryV2.java:68`). The service's `update(null, …)` and `findById(null)` pass the null id to Spring Data's `findById`, which rejects it (`ItemServiceV2.java:33` and `:41`). Every `findAll(null)` dereferences the condition (`JdbcTemplateItemRepositoryV2.java:87`).
- ItemService.ItemServiceV2.FindItems: the QueryDSL repository it delegates to is not part of this model. Its filter is taken to be the conjunction `JpaItemRepositoryV3` builds.
- `SpringDataJpaItemRepository`, `ItemMapper` and `SpringDataJpaAndQueryDslConfig` are not part of this model. They are derived queries, an XML-mapped interface and wiring.
- `log.info` of the JPQL text is not modelled.
