# wuxia-orm-hibernate5: dynamic-query helpers and compressed UUIDs

A Dafny model of two pieces of logic in the wuxia Hibernate 5 data-access layer.

**1. `SupportHibernateDao`'s query helpers.**

- **The criteria builder** (`criteria.dfy`). The `buildCriterion(property, matchType, values...)` switch over `MatchType` yields:
  - a Hibernate criterion;
  - `null` (modelled as `None`);
  - or an exception, when the property name is blank or it reads `propertyValue[k]` past the end of the varargs.

  Two list builders use it:
  - `buildCriterion(Conditions...)` drops blank properties and null results;
  - `buildCriterionByPropertyFilter` keeps one entry per filter, and ORs the criteria of a multi-property filter.
- **The text rewriters** (`count_query.dfy`):
  - `prepareCountHql` derives a count query by case-insensitive search for `from `, ` group by ` and ` order by `;
  - `countSQLResult` wraps SQL in a count query;
  - `appendOrderBy` adds the sort, and refuses a query that already says `order by`.
- **The paging orchestration** (`paging.dfy`). `findPage(Pages, Class, String, Object...)` runs four steps:
  1. count the rows (when `autoCount`);
  2. stop on a zero count;
  3. append the sort;
  4. window the fetch and set the result.

  The database is an `Executor` object. Its answers are fixed functions of the query text and parameters. Each answer is either rows or a count, or the exception the database threw. Every call is recorded in a ghost log, so the order of calls can be stated.

**2. `Base64UuidGenerator.UuidUtils`** (`uuid_utils.dfy`, `base64.dfy`):
- `long2bytes` and `bytes2long` pack a Java `long` (a `bv64`) big-endian into a `byte[]` (an `array<bv8>`) in place, and back.
- `compressedUUID` writes the two halves of a UUID into 16 bytes, then encodes them as unpadded URL-safe Base64 (section 5 of RFC 4648): 22 characters.
- `uncompress` checks the length, appends `"=="`, decodes, and reads the two halves back.

The Base64 codec (commons-codec) is modelled as the code uses it:
- the encoder writes the URL-safe alphabet without padding;
- the decoder reads either alphabet, skips characters outside it and stops at the first `=`.

Errors that the Java code throws are `Err` values of a `Result`:
- `Assert.hasText` failures;
- `AppServiceException` from `prepareCountHql`;
- `Assert.doesNotContain` in `appendOrderBy`;
- `ArrayIndexOutOfBoundsException` from a short varargs array or byte array;
- `IllegalArgumentException("Invalid uuid!")`.

Some behaviours of the code are easy to misread; the model keeps them as written:
- **appendOrderBy is case-sensitive.** It looks for the literal `order by`, so a query that says `ORDER BY` gets a second one (`UpperCaseOrderByPasses`).
- **The duplicate-order-by check runs after counting.** `findPage` appends the sort after the count query has run and `totalCount` has been set, so a duplicate `order by` fails only then (`DuplicateOrderByAfterCount`).
- **The count body depends on `end > 0`.** `prepareCountHql` cuts at ` order by ` only when its index is greater than 0. When the first ` order by ` comes before the first `from `, the lenient `substring` gives an empty body.
- **BW never yields a between-restriction through a filter.** `buildCriterionByPropertyFilter` passes the match value as a single vararg, so `BW` never yields a between-restriction there. A single-property BW filter throws on a non-null value and gives null otherwise. A multi-property one throws in the same case and otherwise gives an OR whose alternatives are all null (`FilterBetweenNeverBuilt`).

## Model

| member | source | states |
|---|---|---|
| Values.IndexOf | src/main/java/cn/wuxia/common/hibernate/dao/SupportHibernateDao.java:329-337 | `indexOf`/`indexOfIgnoreCase` give -1 or an index where the pattern occurs, and the pattern occurs nowhere before that index |
| Values.LowerSearchIsCaseInsensitive | src/main/java/cn/wuxia/common/hibernate/dao/SupportHibernateDao.java:397-398 | searching the lower-cased SQL for lower-case `"from"` finds the same index as a case-insensitive search of the original |
| Values.Substring | src/main/java/cn/wuxia/common/hibernate/dao/SupportHibernateDao.java:339-343 | the slice `substring` returns is a prefix of the text from `start`, and no longer than it |
| Criteria.BuildCriterion | src/main/java/cn/wuxia/common/hibernate/dao/SupportHibernateDao.java:838-919 | a blank property name throws, and only then. EQ/NE/FL/LL/RL/LTE/LT/GTE/GT throw on empty varargs and give null exactly when `values[0]` is blank. Otherwise EQ, NE, LTE, LT, GTE and GT give `eq`, `ne`, `le`, `lt`, `ge` and `gt` on `values[0]`. FL/LL/RL give a like-restriction with ANYWHERE/START/END. ISN, INN, IN and NIN always give their criterion, IN/NIN over all values. BW throws, gives null or gives Between exactly by the length and nullness of `values[0..1]`: it throws at index 0 on empty varargs and at index 1 on a single non-null value. Any other type gives null |
| Criteria.SingleOperandFails | src/main/java/cn/wuxia/common/hibernate/dao/SupportHibernateDao.java:838-919 | with one vararg, the switch throws exactly for a blank property or for BW with a non-null value |
| Criteria.ConditionCriterion | src/main/java/cn/wuxia/common/hibernate/dao/SupportHibernateDao.java:276-291 | a blank property contributes nothing. Otherwise the condition throws exactly when an empty array or list is spread into a case that reads `values[0]`. Otherwise an array or list value is spread into the switch's varargs and any other value passed alone. BW passes both values and yields Between only when both are non-null |
| Criteria.BuildCriteria | src/main/java/cn/wuxia/common/hibernate/dao/SupportHibernateDao.java:271-298 | the loop's result equals `ConditionCriteria` of all the conditions, the list defined condition by condition |
| Criteria.ConditionCriteriaErrPersists | src/main/java/cn/wuxia/common/hibernate/dao/SupportHibernateDao.java:276-297 | once a condition throws, the whole call throws the same exception |
| Criteria.NonNull | src/main/java/cn/wuxia/common/hibernate/dao/SupportHibernateDao.java:293-295 | dropping nulls keeps only elements of the input and never lengthens it; with no null it keeps them all |
| Criteria.ConditionCriteriaAreNonNull | src/main/java/cn/wuxia/common/hibernate/dao/SupportHibernateDao.java:271-298 | when no condition throws, the array is the non-null per-condition results in input order, no longer than the input |
| Criteria.ConditionCriteriaFails | src/main/java/cn/wuxia/common/hibernate/dao/SupportHibernateDao.java:271-298 | the builder throws if and only if some condition throws, and then with index 0 out of bounds |
| Criteria.DisjunctsFail | src/main/java/cn/wuxia/common/hibernate/dao/SupportHibernateDao.java:936-940 | the OR's alternatives throw exactly when some property name is blank, or the match type is BW with a non-null value |
| Criteria.FilterCriterion | src/main/java/cn/wuxia/common/hibernate/dao/SupportHibernateDao.java:930-942 | a filter's entry throws exactly when some property name is blank or it is BW with a non-null value. A single-property filter's entry is the switch's result for that property with the match value as its one vararg. A multi-property filter's entry is an OR whose `k`-th alternative is the switch's result for the `k`-th property |
| Criteria.DisjunctsAreSwitchResults | src/main/java/cn/wuxia/common/hibernate/dao/SupportHibernateDao.java:936-940 | the OR's alternatives are the switch's results for the property names, one per name, in order. They throw exactly when some name's switch throws |
| Criteria.BuildDisjuncts | src/main/java/cn/wuxia/common/hibernate/dao/SupportHibernateDao.java:936-941 | the inner loop's result equals `Disjuncts` of the property names |
| Criteria.DisjunctsErrPersists | src/main/java/cn/wuxia/common/hibernate/dao/SupportHibernateDao.java:937-940 | once a property of the OR throws, the whole OR throws the same |
| Criteria.BuildCriterionByPropertyFilter | src/main/java/cn/wuxia/common/hibernate/dao/SupportHibernateDao.java:927-945 | the loop's result equals `FilterCriteria` of all the filters, the list defined filter by filter |
| Criteria.FilterCriteriaErrPersists | src/main/java/cn/wuxia/common/hibernate/dao/SupportHibernateDao.java:929-943 | once a filter throws, the whole call throws the same |
| Criteria.FilterCriteriaOnePerFilter | src/main/java/cn/wuxia/common/hibernate/dao/SupportHibernateDao.java:927-945 | exactly one entry per filter, in order, each the filter's own entry, nulls included |
| Criteria.FilterBetweenNeverBuilt | src/main/java/cn/wuxia/common/hibernate/dao/SupportHibernateDao.java:927-945 | a BW filter gives null or an OR of nulls, never a between-restriction |
| Criteria.TwoPropertyEqualsIsOr | src/main/java/cn/wuxia/common/hibernate/dao/SupportHibernateDao.java:934-941 | filter `a,b EQ 5` gives `Or([a = 5, b = 5])` |
| CountQuery.FirstMatchIsIndexOf | src/main/java/cn/wuxia/common/hibernate/dao/SupportHibernateDao.java:329 | a first case-insensitive occurrence is what `indexOfIgnoreCase` finds |
| CountQuery.NoMatchIsIndexOf | src/main/java/cn/wuxia/common/hibernate/dao/SupportHibernateDao.java:329-332 | `indexOfIgnoreCase` is negative if and only if the pattern occurs nowhere |
| CountQuery.PrepareCountHql | src/main/java/cn/wuxia/common/hibernate/dao/SupportHibernateDao.java:325-344 | the only failures are a missing `from ` and an unsupported ` group by `. A success starts with `"select count(*) "` |
| CountQuery.PrepareCountHqlFails | src/main/java/cn/wuxia/common/hibernate/dao/SupportHibernateDao.java:329-336 | fails for a missing `from ` if and only if none occurs. Fails for ` group by ` if and only if `from ` occurs and ` group by ` occurs, but not at index 0: only the first occurrence is tested, so one at index 0 lets the query through whatever follows |
| CountQuery.CountBodyFromFirstFrom | src/main/java/cn/wuxia/common/hibernate/dao/SupportHibernateDao.java:337-343 | the count body is a prefix of the query from its first `from `, and all of it when no ` order by ` occurs |
| CountQuery.CountBodyStopsAtOrderBy | src/main/java/cn/wuxia/common/hibernate/dao/SupportHibernateDao.java:337-340 | when the first ` order by ` follows the first `from `, the body is exactly the text between them |
| CountQuery.CountBodyWithoutCut | src/main/java/cn/wuxia/common/hibernate/dao/SupportHibernateDao.java:337-343 | when the first ` order by ` is not past index 0, the body is the whole query from the first `from `. When it lies past 0 but before that `from `, the body is empty |
| CountQuery.CountBodyHasNoOrderBy | src/main/java/cn/wuxia/common/hibernate/dao/SupportHibernateDao.java:337-343 | unless the query begins with ` order by `, the count body contains no ` order by ` |
| CountQuery.CountOfOrderedQuery | src/main/java/cn/wuxia/common/hibernate/dao/SupportHibernateDao.java:325-344 | `select x from T where y=1 order by x` counts as `select count(*) from T where y=1` |
| CountQuery.CountOfGroupedQueryFails | src/main/java/cn/wuxia/common/hibernate/dao/SupportHibernateDao.java:333-336 | `select a from T group by a` is refused as grouped |
| CountQuery.CountWithoutFromFails | src/main/java/cn/wuxia/common/hibernate/dao/SupportHibernateDao.java:329-332 | `select 1` is refused for its missing `from ` |
| CountQuery.CountSqlText | src/main/java/cn/wuxia/common/hibernate/dao/SupportHibernateDao.java:395-402 | no query exactly when the lower-cased SQL lacks `from`. Otherwise the text is `select count(1) as count from (` + sql + `) orgi` |
| CountQuery.AppendOrderBy | src/main/java/cn/wuxia/common/hibernate/dao/SupportHibernateDao.java:207-215 | a null sort gives `""`. Otherwise it fails exactly when `order by` occurs (case-sensitively), and else gives `" order by " + sort` |
| CountQuery.AppendOrderByOnce | src/main/java/cn/wuxia/common/hibernate/dao/SupportHibernateDao.java:207-215 | a query extended by its sort refuses any second sort |
| CountQuery.UpperCaseOrderByPasses | src/main/java/cn/wuxia/common/hibernate/dao/SupportHibernateDao.java:209-211 | `from T ORDER BY a` still receives `" order by b"` |
| Paging.Windowed | src/main/java/cn/wuxia/common/hibernate/dao/SupportHibernateDao.java:221-227 | a windowed fetch yields at most `maxResults` consecutive rows from `firstResult` on, exactly `maxResults` unless the rows run out first, and all the rows without a window |
| Paging.ToLong | src/main/java/cn/wuxia/common/hibernate/dao/SupportHibernateDao.java:309 | a null count is 0, any other count is itself |
| Paging.CreateQuery | src/main/java/cn/wuxia/common/hibernate/dao/SimpleHibernateDao.java:398-407 | a blank query text is refused; otherwise a fresh query with the text and parameters and no window |
| Paging.PageWindow | src/main/java/cn/wuxia/common/hibernate/dao/SupportHibernateDao.java:221-227 | a window exactly when `pageSize > 0`: `pageSize` rows from `(pageNo-1)*pageSize` computed as a Java `int`. The offset is exact while it fits in 32 bits and wraps modulo 2^32 beyond |
| Paging.SetPageParameterToQuery | src/main/java/cn/wuxia/common/hibernate/dao/SupportHibernateDao.java:221-227 | a positive page size sets `firstResult = getFirst()-1` in `int` arithmetic and `maxResults = pageSize`, which is `PageWindow`; otherwise the query is untouched |
| Paging.Wrap32 | src/main/java/cn/wuxia/common/hibernate/dao/SupportHibernateDao.java:224 | an `int` expression's value: a 32-bit value congruent to the exact one modulo 2^32, and equal to it when it fits |
| Paging.ThirdPageOfTwenty | src/main/java/cn/wuxia/common/hibernate/dao/SupportHibernateDao.java:221-227 | page 3 of size 20 fetches 20 rows from offset 40 |
| Paging.LatePageOffsetWraps | src/main/java/cn/wuxia/common/hibernate/dao/SupportHibernateDao.java:221-227 | page 2,200,000 of size 1000 asks for first result -2,094,968,296: the `int` offset wraps |
| Paging.CountHqlResult | src/main/java/cn/wuxia/common/hibernate/dao/SupportHibernateDao.java:306-310 | a failed count derivation runs nothing. Otherwise exactly one unique-result call on the derived text, with its null count read as 0 and its exception passed on |
| Paging.CountSqlResult | src/main/java/cn/wuxia/common/hibernate/dao/SupportHibernateDao.java:395-409 | 0 with no call when there is no `from`. Otherwise one native call on the wrapped text, null read as 0 and its exception passed on |
| Paging.FindPage | src/main/java/cn/wuxia/common/hibernate/dao/SupportHibernateDao.java:100-124 | its outcome, the calls it makes and the `totalCount`/`result` it sets are those of `PageEffect`, including a count or fetch that throws |
| Paging.ZeroCountShortCircuits | src/main/java/cn/wuxia/common/hibernate/dao/SupportHibernateDao.java:107-113 | with autoCount and a zero count: only the count call is made, `totalCount` is 0 and the result is left unset |
| Paging.CountBeforeFetch | src/main/java/cn/wuxia/common/hibernate/dao/SupportHibernateDao.java:100-124 | at most a count then a fetch. With autoCount the count of the spliced query comes first, and `totalCount` is set to its answer exactly when that query answered. Without autoCount no count is made and `totalCount` is untouched. The result is set exactly when a fetch was made and answered |
| Paging.FetchWindowOfPage | src/main/java/cn/wuxia/common/hibernate/dao/SupportHibernateDao.java:115-121 | every fetch carries the page's window, and the result is the fetch's answer under that window: at most `pageSize` rows when `pageSize > 0`, all rows otherwise |
| Paging.DuplicateOrderByAfterCount | src/main/java/cn/wuxia/common/hibernate/dao/SupportHibernateDao.java:107-115 | a sort on a query already saying `order by` fails only after the count ran and `totalCount` was set |
| Paging.FailureSetsNoResult | src/main/java/cn/wuxia/common/hibernate/dao/SupportHibernateDao.java:100-124 | a failed `findPage` has set no result. It has fetched nothing, unless its last call was a fetch that threw the exception it fails with |
| Paging.CountFailureSetsNothing | src/main/java/cn/wuxia/common/hibernate/dao/SupportHibernateDao.java:107-109 | a count query that throws ends `findPage` with that exception, before `totalCount` is set and with nothing fetched |
| Paging.FetchFailureKeepsCount | src/main/java/cn/wuxia/common/hibernate/dao/SupportHibernateDao.java:107-122 | a fetch that throws after a non-zero count ends `findPage` with that exception: `totalCount` keeps the count and no result is set |
| Paging.CountableIsNotBlank | src/main/java/cn/wuxia/common/hibernate/dao/SupportHibernateDao.java:115-117 | a query the count derivation accepts, with any sort appended, passes `createQuery`'s `Assert.hasText` |
| Base64.SextetOf | src/main/java/cn/wuxia/common/entity/Base64UuidGenerator.java:66 | the decoder's table: every URL-safe character has a sextet below 64, `=` has none, and only ASCII characters have one |
| Base64.UrlSafeCharDecodes | src/main/java/cn/wuxia/common/entity/Base64UuidGenerator.java:47 | each sextet is written as a URL-safe character that the decoder reads back as that sextet |
| Base64.GroupRoundTrip | src/main/java/cn/wuxia/common/entity/Base64UuidGenerator.java:47 | three bytes split into four sextets below 64 and join back into the same bytes |
| Base64.ToSextets | src/main/java/cn/wuxia/common/entity/Base64UuidGenerator.java:47 | `n` bytes give `(4n+2)/3` sextets, each below 64 |
| Base64.Chars | src/main/java/cn/wuxia/common/entity/Base64UuidGenerator.java:47 | one URL-safe character per sextet |
| Base64.Encode | src/main/java/cn/wuxia/common/entity/Base64UuidGenerator.java:47 | `encodeBase64URLSafeString` of `n` bytes is `(4n+2)/3` URL-safe characters, without padding |
| Base64.Sextets | src/main/java/cn/wuxia/common/entity/Base64UuidGenerator.java:66 | the decoder reads at most one sextet per character, each below 64 |
| Base64.FromSextets | src/main/java/cn/wuxia/common/entity/Base64UuidGenerator.java:66 | `s` sextets give `3*(s/4)` bytes plus one fewer than the leftover sextets (none for 0 or 1) |
| Base64.Decode | src/main/java/cn/wuxia/common/entity/Base64UuidGenerator.java:66 | `decodeBase64` yields at most three bytes for every four characters |
| Base64.SextetsOfSkipped | src/main/java/cn/wuxia/common/entity/Base64UuidGenerator.java:66 | a text whose characters the decoder all skips reads as no sextets, padded or not |
| Base64.SextetsOfEncoded | src/main/java/cn/wuxia/common/entity/Base64UuidGenerator.java:66 | the encoded text, padded or not, reads back as the sextets it was written from |
| Base64.FromSextetsOfBytes | src/main/java/cn/wuxia/common/entity/Base64UuidGenerator.java:66 | joining the sextets of any bytes gives those bytes back |
| Base64.DecodeEncode | src/main/java/cn/wuxia/common/entity/Base64UuidGenerator.java:66 | decoding the encoding of any bytes, with or without `"=="` appended, gives the bytes back |
| Base64.SextetsOfPadded | src/main/java/cn/wuxia/common/entity/Base64UuidGenerator.java:62-66 | for a text followed by `"=="`: at most one sextet per character, and one for every character exactly when each is in the table |
| UuidUtils.ShiftIsByteOf | src/main/java/cn/wuxia/common/entity/Base64UuidGenerator.java:53 | `(byte) ((value >> 8 * i) & 0xFF)` is byte `i` of the value. The model's `>>` on `bv64` is a logical shift; once the low byte is masked it equals Java's arithmetic shift, for every shift up to 56 |
| UuidUtils.ShiftIsTerm | src/main/java/cn/wuxia/common/entity/Base64UuidGenerator.java:76 | `(((long) b) & 0xFF) << 8 * i` is the byte's term at position `i` |
| UuidUtils.LongBytes | src/main/java/cn/wuxia/common/entity/Base64UuidGenerator.java:51-55 | eight bytes, the `k`-th being byte `7-k` of the value: big-endian |
| UuidUtils.AccumulatedOfPrefix | src/main/java/cn/wuxia/common/entity/Base64UuidGenerator.java:73-79 | the value after `n` iterations depends only on the first `n` bytes read |
| UuidUtils.BytesLongUnrolled | src/main/java/cn/wuxia/common/entity/Base64UuidGenerator.java:73-79 | the value of eight bytes is `b0 << 56 \| ... \| b7` |
| UuidUtils.BytesLongOfLongBytes | src/main/java/cn/wuxia/common/entity/Base64UuidGenerator.java:51-79 | `bytes2long` of the bytes `long2bytes` writes is the original long |
| UuidUtils.LongBytesOfBytesLong | src/main/java/cn/wuxia/common/entity/Base64UuidGenerator.java:51-79 | `long2bytes` of the long `bytes2long` reads gives back the eight bytes |
| UuidUtils.Long2Bytes | src/main/java/cn/wuxia/common/entity/Base64UuidGenerator.java:51-55 | in range, `bytes[offset..offset+8]` becomes `LongBytes(value)` and every other index is unchanged. A negative or past-the-end offset throws at `offset` with nothing written. An array too short for eight bytes throws at its length after writing the bytes that fit |
| UuidUtils.OrInByte | src/main/java/cn/wuxia/common/entity/Base64UuidGenerator.java:76 | one iteration of `value \|= ...` adds the next byte's term to the accumulated value |
| UuidUtils.Bytes2Long | src/main/java/cn/wuxia/common/entity/Base64UuidGenerator.java:73-79 | in range, the result is `BytesLong(bytes[offset..offset+8])`. Outside it throws at `offset` or at the array's length, as in `long2bytes` |
| UuidUtils.UuidBytes | src/main/java/cn/wuxia/common/entity/Base64UuidGenerator.java:42-46 | sixteen bytes: the most significant half big-endian in 0..7, the least significant half in 8..15 |
| UuidUtils.Compressed | src/main/java/cn/wuxia/common/entity/Base64UuidGenerator.java:41-49 | a compressed UUID is exactly 22 URL-safe characters |
| UuidUtils.CompressedUuid | src/main/java/cn/wuxia/common/entity/Base64UuidGenerator.java:41-49 | the two `long2bytes` calls fill the array with `UuidBytes(u)`, and the result is its encoding |
| Values.Utf16Length | src/main/java/cn/wuxia/common/entity/Base64UuidGenerator.java:63 | `length()` counts UTF-16 code units: between one and two per character |
| Values.Utf16LengthOfBmp | src/main/java/cn/wuxia/common/entity/Base64UuidGenerator.java:63 | a text of Basic Multilingual Plane characters has one code unit per character |
| Values.Utf16LengthOfSupplementary | src/main/java/cn/wuxia/common/entity/Base64UuidGenerator.java:63 | a text of characters outside the Basic Multilingual Plane has two code units per character |
| UuidUtils.Uncompressed | src/main/java/cn/wuxia/common/entity/Base64UuidGenerator.java:62-71 | a text whose `length()` is not 22 UTF-16 code units is refused as invalid; any other failure is an index out of bounds |
| UuidUtils.Uncompress | src/main/java/cn/wuxia/common/entity/Base64UuidGenerator.java:62-71 | the array-based steps compute `Uncompressed(s)` |
| UuidUtils.UncompressCompressed | src/main/java/cn/wuxia/common/entity/Base64UuidGenerator.java:41-71 | uncompressing a compressed UUID gives the same `(most, least)` pair |
| UuidUtils.UncompressAccepts | src/main/java/cn/wuxia/common/entity/Base64UuidGenerator.java:62-68 | a text of 22 code units uncompresses if and only if every character is in the decoder's table |
| UuidUtils.SupplementaryTextFailsOutOfBounds | src/main/java/cn/wuxia/common/entity/Base64UuidGenerator.java:62-76 | eleven U+1F600 characters pass the length check, decode to nothing, and fail out of bounds at index 0 |

## Left out

- Hibernate sessions, transactions, `Criteria.list`, `query`, `queryToMap` and `queryUpdate` are foreign calls. The database is the `Executor`'s three answer functions. Any of them may throw. Which exception it throws, and for which query, is not modelled.
- Positional parameter binding is foreign too, and the parameters are passed through unchanged:
  - `createQuery` binds them from position 0;
  - `countSQLResult`'s `createSQLQuery` binds them from position 1 and skips null values.

  `NativeUnique` records the list as given, so an answer function sees the nulls that `createSQLQuery` would not bind.
- `countCriteriaResult` reflects on Hibernate's `CriteriaImpl` internals, which are not part of this model.
- Result materialisation (`Transformers`, `@Entity` checks) is library reflection; a fetch yields rows as `Value`s.
- `PageSQLHandler.dualDynamicCondition` is not part of this model. It is the `Splicer` parameter of `FindPage`, which returns the new text and parameter list.
- `Pages`, `Sort`, `Conditions` and `PropertyFilter` are not part of this model. They are reduced to the fields `findPage` and the builders read, and `Sort.toString()` is a given string.
- `getFirst()` is taken to be `(pageNo-1)*pageSize+1` in `int` arithmetic, the usual formula of this `Pages` type. `pageNo` and `pageSize` are Java `int`s.
- `StringUtil.isBlank` is taken to mean null or all-whitespace text.
- `StringUtil.substring(s, start, end)` is taken to be commons-lang's lenient one: the end is clamped, and an end before the start gives `""`.
- The named-parameter (`Map`) overloads of `findPage`, `countHqlResult` and `countSQLResult`, and the `findPage` variants for criteria and filters, are not modelled: they are the same steps with different binding.
- Paging.Windowed: a negative `firstResult` is clamped to 0. It arises on page 0 or below, or when the `int` offset wraps (`LatePageOffsetWraps`). What Hibernate's `setFirstResult` does with a negative offset is library code that is not part of this model.
- Values.LowerText: `toLowerCase` is folded for ASCII letters only. The patterns searched are ASCII, and the text's length is kept.
- Values.IndexOf: string indices count Unicode characters, not UTF-16 code units. `prepareCountHql` only compares the indices with 0 and slices the same text with them, so the count query's text is the same either way. Only `uncompress` depends on a length in code units, and `Values.Utf16Length` models that one.
- `NumberUtil.toLong` on a non-numeric count is not modelled: the count is an optional integer.
- UUID handling:
  - `UUID.randomUUID` is random;
  - `UUID.toString`/`fromString` are library formatting;
  - so `uuid()`, `compressedUuid()`, `compress(String)`, `generate` and `main` are left out.

  A UUID is its pair of halves.
- UuidUtils.Uncompress returns the `(most, least)` pair, not `uuid.toString()`.
- Criteria.BuildCriterion: the like-restriction keeps the operand value, where the code passes the string `"" + propertyValue[0]`. The string form of a `Value` is not modelled.
- Criteria.BuildCriterion: the `logger.warn` for an unsupported match type is logging; the model keeps only the null result.
- Base64.Sextets: only what `decodeBase64` does on the characters that occur here is modelled:
  - it skips characters outside both alphabets;
  - it stops at the first `=`;
  - a trailing single sextet yields no byte.

  Whitespace handling and the other configuration of commons-codec are not modelled.
