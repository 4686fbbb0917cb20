# bolt-import, modelled in Dafny

bolt-import copies a whole Neo4j database into a fresh store directory. It
reads the origin database over Bolt and writes through a `BatchInserter`. The
program is the single class `Main`. This project models its coercer, its two
description parsers and its four import stages, everything except the driver
and the console output listed under "## Left out":

- **Property coercion** (`toPrimitivePropertyType`). A property value the
  driver returns is passed through unchanged when it is not a list. A list
  becomes a primitive array, and the class of its first element picks the
  branch: String, Long/Integer, Double/Float or Boolean. Any other first
  element raises an error naming its class. The empty list becomes an empty
  `int[]`.
- **Index descriptions**. A `node_label_property` index is described as
  `INDEX ON :Label(property)`. The description must match
  `^INDEX ON :(.+)\((.+)\)$` and hold exactly one `(` and one `)`. The label
  and the property are the two groups. Indexes of every other type are
  passed over: a `node_unique_property` index comes back with its constraint.
- **Constraint descriptions** match
  `^CONSTRAINT ON \( .+:(.+) \) ASSERT .+\.(.+) IS UNIQUE$`. The matcher is
  greedy and backtracks, so each group starts as far right as the groups
  after it allow. The property follows the last `.` that leaves it non-empty.
  The label follows the last `:` that leaves it non-empty, before the last
  ` ) ASSERT ` that leaves a non-empty piece between it and that `.`, and
  after a non-empty piece following `( `. Any other description aborts the
  migration.
- **The four import stages**. Nodes are imported first, then relationships,
  then indexes, then constraints. Each stage handles its records in stream
  order and stops at the first error. The error ends the migration, and the
  inserter is shut down in every case.

Layout:

- `wrappers.dfy` holds `Option` and `Result`.
- `property_values.dfy` models the coercer and the coercion of a property map.
- `schema_descriptions.dfy` holds the two description parsers. Each parser is
  checked against a declarative statement of what its pattern matches. The
  constraint parser is also checked against the split order a backtracking
  matcher tries.
- `batch_insertion.dfy` models the destination store as a class. Its log
  records every request in the order received.
- `pipeline.dfy` specifies each stage as a fold over its records (`Drain`). It
  proves each import method's loop appends exactly the fold's requests. It
  then proves properties of the whole migration: stage order, the shutdown
  coming last, and each relationship following the creation of its endpoints.

## Model

| member | source | states |
|---|---|---|
| `PropertyValues.Coerce` | src/main/java/Main.java:169-208 | the coercer as written, its branches in the code's order; only a non-empty list can fail |
| `PropertyValues.CoerceKeepsLength` | src/main/java/Main.java:177-204 | a list that coerces becomes an array of the list's length, under either coercer |
| `PropertyValues.ToStringArray` | src/main/java/Main.java:186 | the copy into a `String[]` succeeds iff every element is a String, keeps them in order, and otherwise fails with an array store error at the first non-String |
| `PropertyValues.MapToLong` | src/main/java/Main.java:190 | the unboxing to `long` succeeds iff every element is a Long, keeps the values in order, and otherwise fails with a class cast error at the first non-Long |
| `PropertyValues.MapToDouble` | src/main/java/Main.java:194 | the unboxing to `double` succeeds iff every element is a Double, keeps the values in order, and otherwise fails with a class cast error at the first non-Double |
| `PropertyValues.MapToBoolean` | src/main/java/Main.java:198-202 | the intended copy of element `i` into slot `i` succeeds iff every element is a Boolean, keeps the values in order, and otherwise fails with a class cast error at the first non-Boolean |
| `PropertyValues.CoerceAsIntended` | src/main/java/Main.java:169-208 | the coercer with the boolean branch corrected; only a non-empty list can fail |
| `PropertyValues.FirstMisfit` | src/main/java/Main.java:184-195 | an element-by-element copy succeeds exactly when every element has the required class; otherwise it stops at the first element that does not |
| `PropertyValues.ToPrimitivePropertyType` | src/main/java/Main.java:169-208 | the coercer, with its boolean fill loop, returns what `Coerce` specifies, on every value |
| `PropertyValues.CoerceScalarIdentity` | src/main/java/Main.java:171-175 | a value that is not a list is returned unchanged |
| `PropertyValues.CoerceEmptyList` | src/main/java/Main.java:179-182 | the empty list becomes an empty int array |
| `PropertyValues.CoerceStringList` | src/main/java/Main.java:184-187 | a String-headed list succeeds iff every element is a String, and then gives the same strings in order; otherwise the array store fails at the first non-String (the model records its position and class; Java's exception reports neither) |
| `PropertyValues.CoerceLongList` | src/main/java/Main.java:188-191 | a Long-headed list succeeds iff every element is a Long, and then gives the same values in order; otherwise the cast fails at the first non-Long |
| `PropertyValues.CoerceDoubleList` | src/main/java/Main.java:192-195 | a Double-headed list succeeds iff every element is a Double, and then gives the same values in order; otherwise the cast fails at the first non-Double |
| `PropertyValues.CoerceNarrowHeadFails` | src/main/java/Main.java:188-195 | an Integer-headed or Float-headed list passes the instanceof test, but the unboxing cast to long or double fails on element 0 |
| `PropertyValues.CoerceBooleanList` | src/main/java/Main.java:196-204 | a Boolean-headed list always succeeds, with an array of the list's length in which every slot holds the first element |
| `PropertyValues.CoerceBooleanIgnoresTail` | src/main/java/Main.java:196-204 | two Boolean-headed lists with the same head and length coerce alike, whatever their other elements are |
| `PropertyValues.CoerceBooleanExample` | src/main/java/Main.java:199-202 | `[false, true, true]` becomes `[false, false, false]` |
| `PropertyValues.CoerceUnsupportedHead` | src/main/java/Main.java:206-207 | a list headed by any other class is an error naming that class |
| `PropertyValues.CoerceAsIntendedBooleanList` | src/main/java/Main.java:196-204 | with slot `i` taken from element `i`, a Boolean-headed list succeeds iff every element is a Boolean, and then keeps every element in order; otherwise the cast fails at the first non-Boolean |
| `PropertyValues.CoerceAsIntendedBooleanExample` | src/main/java/Main.java:199-202 | the corrected coercer keeps `[false, true, true]` as it is |
| `PropertyValues.BooleanCopyDiffers` | src/main/java/Main.java:199-202 | on `[false, true, true]` the coercer as written and the coercer as intended give different results |
| `PropertyValues.CoerceAsIntendedElsewhere` | src/main/java/Main.java:169-195 | outside Boolean-headed lists the corrected coercer is the written one |
| `PropertyValues.CoerceProperties` | src/main/java/Main.java:69 | a property map coerces iff every value does; then it keeps every key, in order, with its coerced value; otherwise the error is the one of the first value that fails |
| `SchemaDescriptions.CountZero` | src/main/java/Main.java:148-149 | `countMatches` of one character is zero exactly when the character does not occur |
| `SchemaDescriptions.CountConcat` | src/main/java/Main.java:148-149 | the count over two texts one after the other is the sum of their counts |
| `SchemaDescriptions.ParseIndexDescription` | src/main/java/Main.java:147-153 | a rejected description is reported with the description itself |
| `SchemaDescriptions.ParseIndexSound` | src/main/java/Main.java:145-157 | anything the index parser accepts matches the index pattern, with the returned label and property as its groups, and holds exactly one `(` and one `)` |
| `SchemaDescriptions.ParseIndexComplete` | src/main/java/Main.java:145-157 | every text of the pattern's shape with exactly one pair of parentheses is accepted, with exactly its two groups |
| `SchemaDescriptions.ParseIndexText` | src/main/java/Main.java:145-157 | `INDEX ON :l(p)` is accepted iff `l` and `p` are non-empty, hold no line terminator and no parenthesis; the result is then `(l, p)` |
| `SchemaDescriptions.ParseIndexExample` | src/main/java/Main.java:144 | `INDEX ON :Person(name)` gives label `Person` and property `name` |
| `SchemaDescriptions.ParseIndexRejectsParenInName` | src/main/java/Main.java:143-153 | an index text whose label or property holds a `(` or a `)` is rejected, with the description as the error |
| `SchemaDescriptions.ParseIndexRejectsExtraParen` | src/main/java/Main.java:143-153 | the text `INDEX ON :Weird(Label(name)` is rejected |
| `SchemaDescriptions.ParseIndexParenCheckMatters` | src/main/java/Main.java:147-149 | `INDEX ON :a(b)(c)` matches the pattern as label `a(b)` and property `c`, yet the paren count rejects it |
| `SchemaDescriptions.FindConstraintSplit` | src/main/java/Main.java:30 | the right-to-left scan returns a split of the constraint pattern that lies right of every other split in all three positions, and returns none exactly when the pattern does not match |
| `SchemaDescriptions.ParseConstraintDescription` | src/main/java/Main.java:128-129 | a rejected description is reported with the description itself |
| `SchemaDescriptions.ConstraintSplitPieces` | src/main/java/Main.java:30 | a split takes the description apart into the pattern's literal text and its four `.+` pieces |
| `SchemaDescriptions.ParseConstraintAcceptsIffMatch` | src/main/java/Main.java:120-121 | the constraint parser accepts exactly the descriptions the pattern matches |
| `SchemaDescriptions.ParseConstraintIsGreedy` | src/main/java/Main.java:120-123 | the parser returns the groups of the split a greedy backtracking matcher tries first |
| `SchemaDescriptions.ParseConstraintText` | src/main/java/Main.java:120-123 | a constraint text built from a label without `:`, a property without `.` and a middle piece without `)` parses back to that label and property |
| `SchemaDescriptions.ParseConstraintExample` | src/main/java/Main.java:120-123 | `CONSTRAINT ON ( n:Person ) ASSERT n.email IS UNIQUE` gives label `Person` and property `email` |
| `SchemaDescriptions.ParseConstraintSplitsAtLastSeparators` | src/main/java/Main.java:30 | `CONSTRAINT ON ( n:a:b ) ASSERT n.x.y IS UNIQUE` gives label `b` and property `y` |
| `BatchInsertion.Inserter.constructor` | src/main/java/Main.java:35 | a new inserter has received no request |
| `BatchInsertion.Inserter.CreateNode` | src/main/java/Main.java:70-73 | the node creation request is appended to the log |
| `BatchInsertion.Inserter.CreateRelationship` | src/main/java/Main.java:95-99 | the relationship creation request is appended to the log |
| `BatchInsertion.Inserter.CreateDeferredIndex` | src/main/java/Main.java:158 | the schema index request is appended to the log |
| `BatchInsertion.Inserter.CreateDeferredConstraint` | src/main/java/Main.java:124 | the uniqueness constraint request is appended to the log |
| `BatchInsertion.Inserter.Shutdown` | src/main/java/Main.java:53 | the shutdown is appended to the log |
| `Pipeline.Drain` | src/main/java/Main.java:63-82 | a stage, handling its records in stream order, makes at most one request per record |
| `Pipeline.NodeStep` | src/main/java/Main.java:64-73 | a node succeeds iff its properties coerce, and then makes one node creation with its id, its labels and exactly the coerced property map, every key in order; a failure is the coercion's error |
| `Pipeline.RelationshipStep` | src/main/java/Main.java:93-99 | a relationship succeeds iff its properties coerce, and then makes one relationship creation with its endpoints, its type and exactly the coerced property map, every key in order; a failure is the coercion's error |
| `Pipeline.IndexStep` | src/main/java/Main.java:138-165 | an index of another type is passed over; a label-property index succeeds iff its description parses, and then makes one index request with the parsed label and property; an error carries the description |
| `Pipeline.ConstraintStep` | src/main/java/Main.java:117-129 | a constraint succeeds iff its description parses, and then makes one constraint request with the parsed label and property; an error carries the description |
| `Pipeline.Migration` | src/main/java/Main.java:42-45 | the migration succeeds iff all four stages do, and a failure is the failure of one of them |
| `Pipeline.DrainSticky` | src/main/java/Main.java:128-129 | once a record has raised an error, no later record changes the stage's result |
| `Pipeline.DrainSucceeds` | src/main/java/Main.java:116-130 | a stage succeeds exactly when every one of its records is handled without error |
| `Pipeline.DrainStopsAtFirstFailure` | src/main/java/Main.java:116-130 | a failing stage reports the error of its first failing record and keeps exactly the requests made before that record |
| `Pipeline.DrainEmitting` | src/main/java/Main.java:63-82 | in a stage where every record makes a request, request `k` comes from record `k`, and the stage fails at the record right after its last request |
| `Pipeline.LabelPropertyIndexes` | src/main/java/Main.java:142 | the selection holds every `node_label_property` index of the listing and nothing else |
| `Pipeline.LabelPropertyIndexesConcat` | src/main/java/Main.java:137-142 | selecting from two listings one after the other is selecting from each, in that order |
| `Pipeline.LabelPropertyIndexesOne` | src/main/java/Main.java:142 | a single index is selected exactly when its type is `node_label_property` |
| `Pipeline.NodeImportFaithful` | src/main/java/Main.java:57-84 | the node stage creates nodes in stream order, each with its record's id, labels and coerced properties; it succeeds iff every node's properties coerce, and otherwise stops at the first node whose properties do not |
| `Pipeline.RelationshipImportFaithful` | src/main/java/Main.java:86-110 | the relationship stage creates relationships in stream order, each with its record's endpoints, type and coerced properties, and stops at the first one whose properties do not coerce |
| `Pipeline.IndexImportSkipsOtherTypes` | src/main/java/Main.java:142-165 | the index stage does exactly what it would do on the `node_label_property` indexes alone |
| `Pipeline.IndexImportFaithful` | src/main/java/Main.java:133-167 | one index request per label-property index, in order, with the label and property its description names; the stage stops at the first description the parser rejects, with that description as the error |
| `Pipeline.UniqueIndexesSkipped` | src/main/java/Main.java:162-165 | a listing of uniqueness indexes yields no request and no error |
| `Pipeline.ConstraintImportFaithful` | src/main/java/Main.java:112-131 | one constraint request per record, in order, with the parsed label and property; the stage succeeds iff every description parses, and otherwise stops at the first that does not |
| `Pipeline.StageRanks` | src/main/java/Main.java:42-45 | each stage makes requests of its own kind only |
| `Pipeline.FourStagesOrdered` | src/main/java/Main.java:42-53 | four stages run in sequence and followed by a shutdown produce a stage-ordered log with the shutdown once, at the end |
| `Pipeline.MigrationStageOrdered` | src/main/java/Main.java:42-53 | nodes come before relationships, relationships before indexes, indexes before constraints, and the shutdown is the last request and the only one, whether the migration fails or not |
| `Pipeline.MigrationOutcome` | src/main/java/Main.java:42-45 | the migration succeeds iff every record of every stage is handled; a failing node stage is the whole result; a successful one makes the four stages' requests in order |
| `Pipeline.ThenPaths` | src/main/java/Main.java:42-45 | four stages run in sequence stop after the first that fails, keeping the requests of every stage before it |
| `Pipeline.FourStagesPrefix` | src/main/java/Main.java:42-45 | after a successful first stage the log holds its requests, then the second stage's, then requests of later stages only |
| `Pipeline.NodeStageCreatesAll` | src/main/java/Main.java:63-74 | a node stage that succeeds creates a node for every id of the origin database |
| `Pipeline.RelationshipStageJoins` | src/main/java/Main.java:92-99 | the relationship stage only joins ids that the origin's relationships join |
| `Pipeline.EndpointsPrecede` | src/main/java/Main.java:42-45 | when the first stage, if it succeeds, creates every id the second stage's relationships join, each relationship in the log is preceded by the creation of both its endpoints |
| `Pipeline.RelationshipsFollowTheirNodes` | src/main/java/Main.java:42-43 | when every relationship joins nodes of the origin, each relationship the migration creates comes after the creation of both its endpoints |
| `Pipeline.ImportNodes` | src/main/java/Main.java:57-84 | the node loop appends exactly the node stage's requests to the inserter's log and returns its error |
| `Pipeline.ImportRelationships` | src/main/java/Main.java:86-110 | the relationship loop appends exactly the relationship stage's requests and returns its error |
| `Pipeline.ImportIndexes` | src/main/java/Main.java:133-167 | the index loop appends exactly the index stage's requests and returns its error |
| `Pipeline.ImportConstraints` | src/main/java/Main.java:112-131 | the constraint loop appends exactly the constraint stage's requests and returns its error |
| `Pipeline.ImportAll` | src/main/java/Main.java:40-46 | the four loops run in order append the migration's requests and return its error |
| `Pipeline.RunMigration` | src/main/java/Main.java:33-55 | a fresh inserter ends up holding the migration's requests followed by exactly one shutdown, whatever error was raised |

## Left out

- The Bolt driver, its session, the authentication and the server address are not modelled. Each stage's query result is given as a sequence of records in stream order.
- Closing the driver (`driver.close()`) is not modelled, since it makes no request to the store.
- The store directory and its on-disk format are not modelled. The inserter records requests and does not refuse any: duplicate node ids and relationships to missing nodes are not checked.
- The progress dots and the record counter `n` are not modelled, because they only write to the console.
- Floating-point values are kept as bit patterns and only copied. The widening of a Float to a double never happens in the code, because the unboxing cast fails first.
- Null property values and null list elements are not modelled.
- A `description` or `type` field that is not a string (`asString()` failing) is not modelled.
- An exception raised by the inserter itself, including during shutdown, is not modelled.
- A property map is modelled as its entries in the driver's iteration order, so "the first property that fails" is well defined.
- No general regular-expression engine is modelled. Each of the two patterns is decided by a parser proved equal to a declarative statement of what that pattern matches. Java's `.` excludes the line terminators `\n`, `\r`, U+0085, U+2028 and U+2029, so a description holding any of them never matches.

## Findings

| source | as written | input that shows it | evidently intended | confidence | as-written member | corrected member |
|---|---|---|---|---|---|---|
| src/main/java/Main.java:199-202 | the boolean loop stores `list.get( 0 )` in every slot, so every element takes the first element's value | `[false, true, true]` becomes `[false, false, false]` | `out[i] = (boolean) list.get( i )`: slot `i` holds element `i`, and a non-Boolean element fails the cast | high; not executed | `PropertyValues.CoerceBooleanExample` | `PropertyValues.CoerceAsIntendedBooleanList` |

`PropertyValues.Coerce` and `PropertyValues.ToPrimitivePropertyType` model the
coercer as written. `PropertyValues.BooleanCopyDiffers` shows that the two
coercers part ways on the input above. `PropertyValues.CoerceProperties`, and
through it the node and relationship stages, use the coercer as written, so a
migrated boolean array property holds its first element in every slot. The
corrected `PropertyValues.CoerceAsIntended` stands beside it with its property
proved.
