# Rename propagation in an n8n workflow document

This project models the two functions at the core of `fix_workflows.js`.
The first, `walkAndTransformStrings`, copies a JSON value and passes every
string in it through a transform. The second, `applyRenames`, renames nodes
of a workflow document throughout the document:

1. Every `$('Old')` and `$("Old")` reference inside every string of every
   node is rewritten. This is `transformExpressions`: one global regular
   expression replacement per quoting, per map entry, in map order.
2. Pinned data is rebuilt under renamed keys, and its values are rewritten
   the same way.
3. The connection graph is rebuilt under renamed source keys.
4. The `node` field of every target under a group's `main` port is renamed.
5. The `name` field of every node is renamed.

The source mutates the document in place. The model is a pipeline of pure
functions over an immutable value.

Modules:

- `Json` holds the JSON value and `Walk`, which is `walkAndTransformStrings`.
- `Substitution` holds a literal left-to-right replace-all. It shows what
  the global `RegExp` replacement does when the pattern matches one fixed
  string.
- `Renames` holds:
  - the ordered rename map;
  - `renameMap[k] || k`;
  - JavaScript property assignment on an object under construction;
  - the key-renaming loop.
- `Expressions` holds:
  - the regular-expression escape;
  - the reference patterns;
  - `transformExpressions`.
- `Workflows` holds the document and `applyRenames`.
- `WorkflowProperties` states what `applyRenames` does to the whole
  document.
- `Completeness` states that one pass leaves no old name in any place
  that `applyRenames` rewrites.
- `Scenarios` states what the model gives on small concrete documents.

The rename map is a sequence of `(old, new)` pairs in `Object.entries`
order. Where `applyRenames` needs it, the map satisfies `LiteralMap`:
- its keys are distinct;
- no new name contains `$`, so `String.prototype.replace` inserts the new
  name literally.

The stronger lemmas assume `PlainMap`:
- every name is free of `$`, `'` and `"`;
- no new name is also an old name.

`Scenarios.QuotedNameSurvives` and `Scenarios.ChainedEntriesCompose` show
what goes wrong without these conditions.

## Model

| member | source | states |
|---|---|---|
| Json.Walk | fix_workflows.js:8-23 | The result has the input's shape. A string becomes its transform. Other scalars are unchanged. An array keeps its length. An object keeps its keys in order. |
| Json.WalkFields | fix_workflows.js:15-20 | Walking the members of an object keeps every key in place, and each value keeps its shape in the sense of `Corresponds`. WalkPointwise and WalkFieldsObjSet state what happens to the values. |
| Json.WalkPointwise | fix_workflows.js:8-23 | A path of array indices and member positions exists in the result exactly when it exists in the input. At every such path the two values correspond as above. |
| Json.WalkFixes | fix_workflows.js:8-23 | A transform that fixes every string gives back a value equal to the input. |
| Json.WalkIdentity | fix_workflows.js:8-23 | Walking with the identity function returns the input. |
| Json.WalkCongruence | fix_workflows.js:8-23 | Transforms that agree on every string give the same result. |
| Json.WalkCompose | fix_workflows.js:8-23 | Walking with f and then with g is one walk with their composition. |
| Json.WalkIdempotent | fix_workflows.js:8-23 | Walking twice with an idempotent transform is walking once. |
| Json.WalkAllStrings | fix_workflows.js:8-23 | Every string leaf of a walked value is an image of the transform, so it has any property that all images have. |
| Substitution.ReplaceAll | fix_workflows.js:39-41 | A global replacement of a literal pattern. A text without the pattern is returned unchanged. |
| Substitution.ReplaceSkipsDollarFree | fix_workflows.js:39-41 | When the pattern starts with `$`, a dollar-free head is copied unchanged, and the scan resumes after it. |
| Substitution.OutputPrefixBeforeDollar | fix_workflows.js:39-41 | Up to its first `$`, the output of a replacement by a `$`-led text equals the input. |
| Substitution.InputPrefixBeforeDollar | fix_workflows.js:39-41 | When the pattern starts with `$`, a dollar-free head of the input reaches the output unchanged. |
| Substitution.ReplaceAvoids | fix_workflows.js:39-41 | Let the replacement text and a text `p` both start with `$` and hold no other `$`, and let neither be a prefix of the other. Then the result holds no `p`, if `p` is the pattern or the input held no `p`. So no occurrence of the pattern remains, and no such reference is created. |
| Substitution.ReplaceKeeps | fix_workflows.js:39-41 | When the pattern and a text `p` both start with `$`, hold no other `$` and neither is a prefix of the other, an occurrence of `p` survives the replacement. |
| Substitution.ReplaceIntroduces | fix_workflows.js:39-41 | If the pattern occurred, the replacement text occurs in the result. |
| Substitution.ReplaceStep | fix_workflows.js:39-41 | Where the pattern does not start, the first character is copied and the scan moves on by one. |
| Substitution.ReplaceSkipsLed | fix_workflows.js:39-41 | A dollar-led text that cannot overlap a dollar-led pattern is copied whole, and the scan resumes after it. |
| Substitution.ReplaceNoNewLead | fix_workflows.js:39-41 | A replacement whose replacement text is dollar-led makes no dollar-led text start after a leading character where it did not start before. |
| Substitution.ReplaceCommute | fix_workflows.js:39-41 | Two replacements of dollar-led texts commute when neither pattern can overlap the other pattern or the other's replacement text. |
| Substitution.ReplaceRoundTrip | fix_workflows.js:39-41 | When the replacement text starts with `$` and holds no other `$`, replacing back with the two texts swapped restores the input, provided the input held no replacement text of its own. |
| Renames.Lookup | fix_workflows.js:55 | `obj[k]` on the map or on an object: a found value is stored under that key, and a missing result means the key is absent. |
| Renames.LookupFinds | fix_workflows.js:55 | With distinct keys, a lookup gives v exactly when (k, v) is an entry. |
| Renames.RenameName | fix_workflows.js:55 | `renameMap[k] \|\| k`. The result is k itself or a value mapped from k. An unmapped key is kept. |
| Renames.RenameNameMapped | fix_workflows.js:55 | A key with a non-empty mapped value is renamed to that value. |
| Renames.RenameNameIdempotent | fix_workflows.js:55 | When no value is a key, renaming twice is renaming once. |
| Renames.RenameNameAvoidsKeys | fix_workflows.js:55 | When no value is a key and no value is empty, the rename of any name is not an old name. |
| Renames.ObjSet | fix_workflows.js:56 | Property assignment. An existing key keeps its position and takes the new value, and every other member is unchanged. A new key goes last. Distinct keys stay distinct, and every member of the result is the assigned pair or the old member at that position. |
| Renames.RenameEntries | fix_workflows.js:53-57 | Rebuilding an object under renamed keys gives distinct keys. It has no more members than the input. Every key is the rename of an input key. |
| Renames.RenameEntriesPointwise | fix_workflows.js:62-66 | Without collisions, one member comes out per input member, in order: the renamed key with the transformed value. |
| Renames.RenameEntriesFixed | fix_workflows.js:53-57 | An object whose keys and values are fixed by the rename is rebuilt as it was. |
| Renames.RenameEntriesEmptyMap | fix_workflows.js:62-66 | With an empty map and the identity as the value transform, an object with distinct keys is rebuilt as it was. |
| Renames.RenameEntriesKeysFixed | fix_workflows.js:62-66 | Every key of the rebuilt object is fixed by the rename, provided no value is a key. |
| Renames.RenameEntriesValues | fix_workflows.js:53-57 | When `g` is idempotent, `g` fixes every value of the rebuilt object, because each is an image of `g`. |
| Renames.RenameEntriesIdempotent | fix_workflows.js:53-57 | Rebuilding twice is rebuilding once, provided no value is a key and the value transform is idempotent. |
| Expressions.EscapeRegex | fix_workflows.js:37 | The escaped name is between one and two times as long as the name. |
| Expressions.EscapeConcat | fix_workflows.js:37 | Escaping distributes over concatenation. |
| Expressions.EscapeSingle | fix_workflows.js:37 | A syntax character gets one backslash in front. Any other character is kept as it is. |
| Expressions.EscapeIsLiteral | fix_workflows.js:37 | The escaped name, read as a regular expression, matches exactly the name. No metacharacter of the name acts as a wildcard. |
| Expressions.EscapeRefEnds | fix_workflows.js:39-41 | The fixed parts of the pattern are the escaped fixed parts of a reference. |
| Expressions.PatternIsEscapedRef | fix_workflows.js:39-41 | The pattern source built by the function is the escape of the reference text. |
| Expressions.PatternMatchesReference | fix_workflows.js:37-41 | Each of the two patterns matches exactly the text `$('old')` or `$("old")`. |
| Expressions.Ref | fix_workflows.js:39-41 | The reference text `$('name')` or `$("name")`, also the replacement text. It is five characters longer than the name and starts with `$`. RefShape, RefDollarLed and PatternMatchesReference state the rest. |
| Expressions.PatternSource | fix_workflows.js:39-41 | The regular-expression source built for an old name. It has no contract of its own. PatternIsEscapedRef and PatternMatchesReference state that it matches exactly `Ref(q, old)`. |
| Expressions.RefPrefix | fix_workflows.js:39-41 | A reference to a plain name is a prefix of another reference only when the quoting and the name are the same. |
| Expressions.RefsIncompatible | fix_workflows.js:39-41 | References to different plain names, or in different quotings, never start at the same place. |
| Expressions.RefAt | fix_workflows.js:39-41 | A reference to a plain name starts a text that begins with a reference only when it is that reference, whatever follows. |
| Expressions.RefReplaceStep | fix_workflows.js:39-41 | Let the name `n` of the leading reference and the old name be plain, and let the rest of the text have no `$`. Then the replacement changes the leading reference exactly when it is the one sought, and copies the rest. |
| Expressions.RenameRefInContext | fix_workflows.js:35-42 | Let the old name, the new name and the referenced name `n` be plain. For one entry on an expression holding one reference between dollar-free text, the reference is renamed exactly when it names the old name, and the text around it is kept. |
| Expressions.RenameRef | fix_workflows.js:37-41 | One iteration of the loop: the single-quote replacement, then the double-quote one. A string with no reference to the old name comes back unchanged. RenameRefRoundTrip states that every other character is kept. RenameRefRemoves, RenameRefKeeps, RenameRefIntroduces and RenameRefInContext state the rest. |
| Expressions.RenameRefRemoves | fix_workflows.js:35-42 | When the old and new names are plain and differ, no reference to the old name remains after one entry, in either quoting. |
| Expressions.RenameRefPreservesAbsence | fix_workflows.js:35-42 | When the old name, the new name and a name `n` other than the new name are all plain, one entry creates no reference to `n`. |
| Expressions.RenameRefKeeps | fix_workflows.js:35-42 | When the old name is plain, one entry keeps every reference to any other plain name. Renaming `If` keeps `$('If5')`. |
| Expressions.RenameRefRoundTrip | fix_workflows.js:37-41 | When the old and new names are plain and differ, and the string held no reference to the new name, renaming back restores the string. So one entry changes nothing but the references it replaces. |
| Expressions.RenameRefIntroduces | fix_workflows.js:35-42 | When the old and new names are plain and differ, a string holding a reference to the old name holds one to the new name afterwards, in the same quoting. |
| Expressions.RewriteRefs | fix_workflows.js:33-44 | `transformExpressions`: the entries in map order. It has no contract of its own. RewriteRefsUnmapped, RewriteRefsRemoves, RewriteRefsPreservesAbsence, RewriteRefsIdempotent and DollarFreeUnchanged state what it does. |
| Expressions.RewriteRefsUnmapped | fix_workflows.js:33-44 | A string with no reference to any old name comes back unchanged. |
| Expressions.RewriteRefsPreservesAbsence | fix_workflows.js:33-44 | When every name of the map is plain, the whole map creates no reference to a plain name that is not one of its new names. |
| Expressions.RewriteRefsRemoves | fix_workflows.js:33-44 | With a plain map, no reference to any old name remains. |
| Expressions.RewriteRefsIdempotent | fix_workflows.js:33-44 | With a plain map, rewriting twice is rewriting once. |
| Expressions.DollarFreeHasNoRef | fix_workflows.js:39-41 | A string without `$` holds no reference. |
| Expressions.DollarFreeUnchanged | fix_workflows.js:33-44 | A string without `$` passes through the rewrite unchanged. |
| Expressions.RewriteOutputsFree | fix_workflows.js:33-44 | With a plain map, every rewritten string and every new name holds no reference to any old name. |
| Workflows.LookupObjSet | fix_workflows.js:87 | Reading a member just assigned gives the assigned value. |
| Workflows.WalkFieldsObjSet | fix_workflows.js:47-49 | Assigning a member and then walking the object is walking the object and then assigning the walked member. |
| Workflows.RewriteNode | fix_workflows.js:47-49 | The expression rewrite of a node keeps its keys in order. |
| Workflows.RewritePinData | fix_workflows.js:52-59 | Pinned data is present after the step exactly when it was present before. |
| Workflows.RenameTarget | fix_workflows.js:75-77 | A target keeps its type and index. Its node is renamed by `renameMap[node] \|\| node` unless the node name is empty. |
| Workflows.RenameSlots | fix_workflows.js:72-80 | Every target of every output slot of one port. The slots keep their shape, and each target keeps its kind and index. An empty or unmapped node name is kept. A non-empty name mapped to a non-empty name takes it. RenameSlotsFixed and RenameGroupRemoves state what follows. |
| Workflows.RenameGroup | fix_workflows.js:71-81 | A group keeps its ports in order, with their names and numbers of slots. Every port other than `main` is unchanged. RenameGroupIdempotent, RenameGroupRemoves and EmptyMapConnectionsFixed state what happens to the `main` targets. |
| Workflows.RenameTargets | fix_workflows.js:70-82 | Every group keeps its key and its ports, and every port other than `main` is unchanged. ApplyRenamesConnections and ConnectionStepsRemove state what happens to the `main` targets. |
| Workflows.RenameNode | fix_workflows.js:85-89 | A node keeps its keys. Its name is renamed by `renameMap[name] \|\| name`. Every member other than `name` is unchanged. |
| Workflows.ApplyRenames | fix_workflows.js:29-92 | The document keeps its node count and each node's keys. Pinned data stays present or absent. Every other top-level member is unchanged. |
| WorkflowProperties.LookupWalk | fix_workflows.js:15-20 | Reading a member of a walked object reads the walked member. |
| WorkflowProperties.RewriteNodeKeepsName | fix_workflows.js:47-49 | A dollar-free node name survives the expression rewrite. |
| WorkflowProperties.ApplyRenamesNode | fix_workflows.js:47-89 | For any string name, the node ends named with the rename of its expression-rewritten name. So a dollar-free name mapped to a non-empty name ends as that name, and an unmapped dollar-free name is kept. Every other member is the rewritten member. |
| WorkflowProperties.SingleEntryNode | fix_workflows.js:47-89 | With a single entry whose new name is non-empty and has no `$`, a node named by the old name ends named by the new one, whatever the old name holds. |
| WorkflowProperties.ApplyRenamesPinData | fix_workflows.js:52-59 | Without key collisions, pinned data keeps one member per member, in order, under the renamed key and with the rewritten value. |
| WorkflowProperties.ApplyRenamesConnections | fix_workflows.js:61-82 | Without key collisions, connection groups keep their order. Each one is filed under its renamed key and has its `main` targets renamed. |
| WorkflowProperties.RenameTargetMapped | fix_workflows.js:75-77 | A non-empty target node mapped to a non-empty name takes the new name. An unmapped target is left as it was. |
| WorkflowProperties.RenameSlotsFixed | fix_workflows.js:72-80 | Output slots whose targets are all fixed by the rename are unchanged. |
| WorkflowProperties.EmptyMapNodeFixed | fix_workflows.js:47-89 | With an empty map, both node steps give the node back. |
| WorkflowProperties.EmptyMapConnectionsFixed | fix_workflows.js:61-82 | With an empty map, both connection steps give a graph with distinct keys back. |
| WorkflowProperties.ApplyRenamesEmptyMap | fix_workflows.js:29-92 | An empty map leaves the whole document unchanged. |
| WorkflowProperties.RenameTargetIdempotent | fix_workflows.js:75-77 | When no new name is an old name, renaming a target twice is renaming it once. |
| WorkflowProperties.RenameGroupIdempotent | fix_workflows.js:71-81 | When no new name is an old name, renaming a group's targets twice is renaming them once. |
| WorkflowProperties.RenameNodeIdempotent | fix_workflows.js:85-89 | When no new name is an old name, renaming a node twice is renaming it once. |
| WorkflowProperties.RewriterIdempotent | fix_workflows.js:33-49 | With a plain map, the expression rewrite is idempotent on strings and on whole values. |
| WorkflowProperties.NodeStepsIdempotent | fix_workflows.js:47-89 | With a plain map, both node steps applied again leave a node alone. |
| WorkflowProperties.ConnectionStepsIdempotent | fix_workflows.js:61-82 | When no new name is an old name, both connection steps applied again leave the graph alone. |
| WorkflowProperties.PinDataStepIdempotent | fix_workflows.js:52-59 | With a plain map, the pinned-data step applied again leaves the data alone. |
| WorkflowProperties.ApplyRenamesIdempotent | fix_workflows.js:29-92 | With a plain map, applying the map a second time changes nothing. |
| Completeness.NodeStepsRemove | fix_workflows.js:47-89 | With a plain map of non-empty new names, after both node steps the node's name is not an old name and none of its strings refers to one. |
| Completeness.RenamedKeysAvoidOldNames | fix_workflows.js:53-66 | When no new name is an old name and no new name is empty, no key made by the key-renaming loop is an old name. |
| Completeness.PinDataStepRemoves | fix_workflows.js:52-59 | With a plain map of non-empty new names, after the pinned-data step no key is an old name and no string refers to one. |
| Completeness.RenameGroupRemoves | fix_workflows.js:71-81 | When no new name is an old name and no new name is empty, after target renaming no non-empty `main` target names an old name. |
| Completeness.ConnectionStepsRemove | fix_workflows.js:61-82 | When no new name is an old name and no new name is empty, after both connection steps no key and no non-empty `main` target is an old name. |
| Completeness.ApplyRenamesRemovesOldNames | fix_workflows.js:29-92 | After one pass of a plain map with non-empty new names, no place the function rewrites mentions an old name. No node name, pinned-data key, connection key or non-empty `main` target equals one. No string of a node or of the pinned data holds a `$('...')` or `$("...")` reference to one. |
| Scenarios.ExpressionRenamed | fix_workflows.js:33-44 | `={{ $('If').item.json.x }}` with `If -> Checked` becomes `={{ $('Checked').item.json.x }}`. |
| Scenarios.LongerNameKept | fix_workflows.js:33-44 | `$('If5')` is kept when `If` is renamed. |
| Scenarios.EdgeRenamed | fix_workflows.js:61-82 | The edge `If -> Loop` with `If -> Checked` and `Loop -> Batch` becomes `Checked -> Batch`. |
| Scenarios.ChainedEntriesCompose | fix_workflows.js:33-87 | With the chain `A -> B, B -> C`, an expression reference to `A` ends at `C`, while the node `A` is named `B`. |
| Scenarios.QuotedNameSurvives | fix_workflows.js:39 | Renaming `A')B` to `A` in `$('A')B')B')` leaves a reference to `A')B`. |
| Scenarios.NodeRenamed | fix_workflows.js:47-89 | With `If -> Checked`, the node named `If` ends named `Checked`, and its expression `={{ $('If').item.json.x }}` becomes `={{ $('Checked').item.json.x }}`. |
| Scenarios.OtherPortKept | fix_workflows.js:70-82 | With `If -> Checked`, a target `If` under the `ai_tool` port comes out unchanged, and the removal property still holds of the document. |
| Scenarios.NameRewrittenBeforeLookup | fix_workflows.js:47-87 | With `A -> C` and `$('A') -> B`, the node named `$('A')` ends named `$('C')`, not `B`. |

## Left out

- Reading and writing the workflow files, the hard-coded rename maps and the patches applied outside `applyRenames` are not modelled. They are file I/O and fixed data, not logic.
- Expressions.RewriteRefsRemoves: proved only for names free of `$`, `'` and `"`, where no new name is an old name. A quote in an old name lets one replacement rebuild a reference to that old name (`Scenarios.QuotedNameSurvives`). A chained map carries references past the intended new name (`Scenarios.ChainedEntriesCompose`).
- Workflows.ApplyRenames: requires new names without `$`. `String.prototype.replace` reads `$&`, `$'` and similar sequences in the replacement specially, and that is not modelled.
- Completeness.ApplyRenamesRemovesOldNames: the guarantee covers only the places the source rewrites. The source renames targets only under `connGroup.main`, and rewrites strings only inside `nodes` and `pinData`. Old names therefore survive in targets under other ports such as `ai_tool` (`Scenarios.OtherPortKept`), in strings of the other top-level members, and in references written in another syntax such as `$node["If"]`.
- WorkflowProperties.ApplyRenamesNode: the simple rule "a mapped name ends with its new name" is stated only for dollar-free names. The source rewrites every string of a node, `name` included, as an expression before it looks the name up. When the map has two or more entries, a name holding `$` can therefore miss its own entry (`Scenarios.NameRewrittenBeforeLookup`). The general clause states what happens in that case. With a single entry whose new name is non-empty and free of `$`, the node always takes the new name (`WorkflowProperties.SingleEntryNode`). An empty new name keeps the old name through `renameMap[node.name] ||`.
- JavaScript property lookup through the prototype chain is not modelled. A node named `constructor` or `__proto__` would find an inherited property of the rename map.
- Assigning a member named `__proto__` to a new object is not modelled. The walk, `newPinData[newKey] = ...` and `newConnections[newKey] = ...` call the inherited setter for that key, and the member is dropped. The model keeps it, so `Json.WalkIdentity` and `WorkflowProperties.ApplyRenamesEmptyMap` do not describe the source on documents with such a key.
- A document without `nodes` makes the source throw when it maps the nodes. The model's document always has a node sequence.
- The property order of objects with integer-like keys is not modelled. JavaScript lists such keys first, in ascending order. Objects are kept in insertion order.
- A node whose `name` is not a string keeps its name. JavaScript would look up the string form of the value, such as `undefined`.
- Connection groups are typed. A non-array output slot, a `null` target and a missing `connections` member cannot be represented. The source skips the first two and fails on the third.
- A truthy `main` that is not iterable, such as `{}` or a number, is not modelled. The source throws at the `for ... of` loop over it. The model's `main` port is always a sequence of slots.
- A `null` entry of `nodes` is not modelled. The walk returns it as it is, and the source throws when it reads `node.name` in the last step. The model's nodes are always objects.
- Pinned data that is present is always rebuilt, including `{}`. Falsy non-object values of `pinData` are modelled as absent.
- A truthy `pinData` that is not an object is not modelled. The source rebuilds it with `Object.entries`. A string or an array becomes an object keyed by position, and a number or `true` becomes `{}`. The model's pinned data is always an object.
- JSON numbers are modelled as integers. Strings are sequences of characters, with no UTF-16 surrogate handling.
