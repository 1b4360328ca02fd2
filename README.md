# Navigator wizard and filter descriptors, in Dafny

This project models two pieces of the Eclipse Common Navigator
(`org.eclipse.ui.navigator`) that read contributions from the extension
registry:

- **The common wizard registry** (`CommonWizardDescriptorManager`). It keeps a
  table from a wizard type (`"new"`, `"import"`, `"export"`, ...) to the set of
  wizard descriptors contributed for that type. A descriptor is registered
  under its own type, the set for a type is created lazily, and a descriptor
  already present is not added twice. Two queries go over the set for one
  type and collect the wizard ids of the descriptors that enable. The query
  for an element also skips descriptors that name no wizard id. The query
  for a selection does not. Reading a `commonWizard` element builds and
  registers a descriptor. If building fails, or the tag is another one, the
  superclass reader answers.
- **The common filter descriptor** (`CommonFilterDescriptor`). It describes a
  `<commonFilter/>` element. Its id is the `id` attribute, or `""` when that
  is missing. A filter expression is recorded only when there is exactly
  one `filterExpression` child. `activeByDefault` is parsed the way
  `Boolean.valueOf(String)` parses it. `createFilter` prefers the Core
  Expression over the `class` attribute, and falls back to the skeleton
  filter when instantiation fails. `toString` has a fixed format.

The extension registry is replaced by plain values. A configuration element
is a record of its tag name, its attributes (`map<string, string>`), its
children and the namespace of the extension that declares it
(`configuration_elements.dfy`). A Java `null` is `Option.None`
(`wrappers.dfy`). The parts of `java.lang` the descriptors depend on are in
`java_lang.dfy`: `String.equalsIgnoreCase`, `Boolean.parseBoolean`, and the
text `"null"` that string concatenation writes for a null reference.

The wizard table is a field of a class, updated in place by
`AddCommonWizardDescriptor` (`wizards.dfy`). Its two queries are loops over
the set for one type. Java's `HashSet` iterates in no specified order, so each
query's result is specified as a multiset of ids: `WizardIds` of the
descriptors that match. `WizardIds` collects one id per descriptor of a set.
The lemma `WizardIdsRemove` shows that the order of removal does not change
it, and `WizardIdsCount` shows that each id occurs once per descriptor that
carries it. The filter descriptor is a class whose constructor runs `Init`
to set the `id` and `filterExpression` fields. Its readers are functions over
that state (`filters.dfy`).

Values taken for the extension-point constants, which are declared in a file
outside this model: tag `commonWizard`, tag `filterExpression`, and the
attributes `id`, `name`, `description`, `activeByDefault` and `class`.

## Model

| member | source | states |
|---|---|---|
| ConfigurationElements.ConfigElement.GetAttribute | bundles/org.eclipse.ui.navigator/src/org/eclipse/ui/navigator/internal/filters/CommonFilterDescriptor.java:46 | an attribute is present exactly when the element has it, with its value; otherwise null |
| ConfigurationElements.ConfigElement.GetChildren | bundles/org.eclipse.ui.navigator/src/org/eclipse/ui/navigator/internal/filters/CommonFilterDescriptor.java:49-50 | the children returned are the element's children with the given tag, each as many times as it occurs among the children, and no child with another tag |
| ConfigurationElements.ChildrenNamed | bundles/org.eclipse.ui.navigator/src/org/eclipse/ui/navigator/internal/filters/CommonFilterDescriptor.java:49-50 | filtering a child list by tag keeps every child with that tag as often as it occurs and drops every other child |
| JavaLang.EqualsIgnoreCase | bundles/org.eclipse.ui.navigator/src/org/eclipse/ui/navigator/internal/filters/CommonFilterDescriptor.java:86-87 | two strings are equal ignoring case exactly when they have the same length and match character by character, with ASCII case folding |
| JavaLang.EqualsTrueIgnoringCase | bundles/org.eclipse.ui.navigator/src/org/eclipse/ui/navigator/internal/filters/CommonFilterDescriptor.java:86-87 | a string equals "true" ignoring case exactly when it is one of the sixteen case spellings of "true" |
| JavaLang.ParseBoolean | bundles/org.eclipse.ui.navigator/src/org/eclipse/ui/navigator/internal/filters/CommonFilterDescriptor.java:86-87 | `Boolean.valueOf(s)` is true exactly when `s` is non-null and one of the sixteen case spellings of "true" |
| JavaLang.JavaString | bundles/org.eclipse.ui.navigator/src/org/eclipse/ui/navigator/internal/filters/CommonFilterDescriptor.java:129 | concatenating a null string reference writes "null"; a non-null one writes itself |
| Wizards.Registered | bundles/org.eclipse.ui.navigator/src/org/eclipse/ui/navigator/internal/wizards/CommonWizardDescriptorManager.java:101-103 | looking up a type gives its set when it has an entry and no descriptors when it has none |
| Wizards.ElementMatches | bundles/org.eclipse.ui.navigator/src/org/eclipse/ui/navigator/internal/wizards/CommonWizardDescriptorManager.java:111 | the element query keeps exactly the descriptors of the set that name a wizard id and enable for the element |
| Wizards.SelectionMatches | bundles/org.eclipse.ui.navigator/src/org/eclipse/ui/navigator/internal/wizards/CommonWizardDescriptorManager.java:141 | the selection query keeps exactly the descriptors of the set that enable for the selection; it keeps everything the element query would, and what it keeps beyond that has a null id |
| Wizards.WellFormedLookup | bundles/org.eclipse.ui.navigator/src/org/eclipse/ui/navigator/internal/wizards/CommonWizardDescriptorManager.java:74-84 | in the table the registry keeps, a type has an entry exactly when some descriptor is registered for it, and each descriptor found sits under its own type |
| Wizards.Insert | bundles/org.eclipse.ui.navigator/src/org/eclipse/ui/navigator/internal/wizards/CommonWizardDescriptorManager.java:74-84 | after registering d, the table's keys are the old keys plus d's type, and a descriptor is under a type exactly when it was there before or it is d under d's own type |
| Wizards.InsertIdempotent | bundles/org.eclipse.ui.navigator/src/org/eclipse/ui/navigator/internal/wizards/CommonWizardDescriptorManager.java:81-83 | registering the same descriptor twice gives the same table as registering it once |
| Wizards.InsertPresent | bundles/org.eclipse.ui.navigator/src/org/eclipse/ui/navigator/internal/wizards/CommonWizardDescriptorManager.java:81-83 | registering a descriptor that is already in its type's set leaves the table unchanged |
| Wizards.InsertCommutes | bundles/org.eclipse.ui.navigator/src/org/eclipse/ui/navigator/internal/wizards/CommonWizardDescriptorManager.java:74-84 | registering two descriptors in either order gives the same table |
| Wizards.InsertWellFormed | bundles/org.eclipse.ui.navigator/src/org/eclipse/ui/navigator/internal/wizards/CommonWizardDescriptorManager.java:74-84 | registering keeps every entry non-empty and keeps each descriptor under its own type |
| Wizards.WizardIdsRemove | bundles/org.eclipse.ui.navigator/src/org/eclipse/ui/navigator/internal/wizards/CommonWizardDescriptorManager.java:106-113 | the multiset of ids a set yields is the same whichever descriptor is visited first, so the iteration order of the set is irrelevant |
| Wizards.WizardIdsCount | bundles/org.eclipse.ui.navigator/src/org/eclipse/ui/navigator/internal/wizards/CommonWizardDescriptorManager.java:106-113 | each id occurs in a set's ids as often as there are descriptors in it carrying that id |
| Wizards.WizardIdsSize | bundles/org.eclipse.ui.navigator/src/org/eclipse/ui/navigator/internal/wizards/CommonWizardDescriptorManager.java:136-145 | a set yields exactly one id per descriptor |
| Wizards.WizardIdsMembership | bundles/org.eclipse.ui.navigator/src/org/eclipse/ui/navigator/internal/wizards/CommonWizardDescriptorManager.java:106-113 | an id is among a set's ids exactly when some descriptor in it carries that id |
| Wizards.ElementMatchesStep | bundles/org.eclipse.ui.navigator/src/org/eclipse/ui/navigator/internal/wizards/CommonWizardDescriptorManager.java:108-112 | visiting one descriptor in the element query adds its id exactly when it names an id and enables for the element |
| Wizards.SelectionMatchesStep | bundles/org.eclipse.ui.navigator/src/org/eclipse/ui/navigator/internal/wizards/CommonWizardDescriptorManager.java:138-142 | visiting one descriptor in the selection query adds its id, null or not, exactly when it enables for the selection |
| Wizards.ElementIdsBounds | bundles/org.eclipse.ui.navigator/src/org/eclipse/ui/navigator/internal/wizards/CommonWizardDescriptorManager.java:111-115 | the element query's ids never include null, and there are at most as many ids as registered descriptors of the type |
| Wizards.OverloadsAgreeOnNonNullIds | bundles/org.eclipse.ui.navigator/src/org/eclipse/ui/navigator/internal/wizards/CommonWizardDescriptorManager.java:98-146 | under the same enablement, the element and selection queries report every non-null id equally often; only null ids differ |
| Wizards.RegisteredWizardIsOffered | bundles/org.eclipse.ui.navigator/src/org/eclipse/ui/navigator/internal/wizards/CommonWizardDescriptorManager.java:71-115 | once a descriptor that names an id and enables for an element is registered, the element query for its type reports that id |
| Wizards.CommonWizardDescriptorManager.constructor | bundles/org.eclipse.ui.navigator/src/org/eclipse/ui/navigator/internal/wizards/CommonWizardDescriptorManager.java:50 | the registry starts with an empty table |
| Wizards.CommonWizardDescriptorManager.AddCommonWizardDescriptor | bundles/org.eclipse.ui.navigator/src/org/eclipse/ui/navigator/internal/wizards/CommonWizardDescriptorManager.java:71-85 | a null descriptor leaves the table unchanged; otherwise the table becomes `Insert` of the old table, and the table invariant is kept |
| Wizards.CommonWizardDescriptorManager.GetEnabledCommonWizardDescriptorIds | bundles/org.eclipse.ui.navigator/src/org/eclipse/ui/navigator/internal/wizards/CommonWizardDescriptorManager.java:98-116 | a type with no entry gives no ids; otherwise the ids, as a multiset, are those of the type's descriptors that name an id and enable for the element; none is null; at most one per registered descriptor |
| Wizards.CommonWizardDescriptorManager.GetEnabledCommonWizardDescriptorIdsForSelection | bundles/org.eclipse.ui.navigator/src/org/eclipse/ui/navigator/internal/wizards/CommonWizardDescriptorManager.java:129-146 | a type with no entry gives no ids; otherwise the ids, as a multiset and possibly null, are those of the type's descriptors that enable for the selection, one per enabled descriptor |
| Wizards.CommonWizardDescriptorManager.ReadElement | bundles/org.eclipse.ui.navigator/src/org/eclipse/ui/navigator/internal/wizards/CommonWizardDescriptorManager.java:151-165 | a `commonWizard` element whose descriptor is built is registered and handled (true); a failed build or another tag registers nothing and returns the superclass result |
| Filters.CommonFilterDescriptor.constructor | bundles/org.eclipse.ui.navigator/src/org/eclipse/ui/navigator/internal/filters/CommonFilterDescriptor.java:39-43 | the descriptor keeps its element and is initialised as `Init` states |
| Filters.CommonFilterDescriptor.Init | bundles/org.eclipse.ui.navigator/src/org/eclipse/ui/navigator/internal/filters/CommonFilterDescriptor.java:45-53 | the id is the `id` attribute or "" when it is missing; an expression is recorded exactly when there is one `filterExpression` child, and it is that child's |
| Filters.CommonFilterDescriptor.GetId | bundles/org.eclipse.ui.navigator/src/org/eclipse/ui/navigator/internal/filters/CommonFilterDescriptor.java:45-62 | the id is never null: the `id` attribute when given, "" otherwise |
| Filters.CommonFilterDescriptor.GetName | bundles/org.eclipse.ui.navigator/src/org/eclipse/ui/navigator/internal/filters/CommonFilterDescriptor.java:68-70 | the raw `name` attribute, null when missing |
| Filters.CommonFilterDescriptor.GetDescription | bundles/org.eclipse.ui.navigator/src/org/eclipse/ui/navigator/internal/filters/CommonFilterDescriptor.java:77-79 | the raw `description` attribute, null when missing |
| Filters.CommonFilterDescriptor.IsActiveByDefault | bundles/org.eclipse.ui.navigator/src/org/eclipse/ui/navigator/internal/filters/CommonFilterDescriptor.java:85-88 | true exactly when `activeByDefault` is given and spells "true" in any mixture of cases |
| Filters.CommonFilterDescriptor.CreateFilter | bundles/org.eclipse.ui.navigator/src/org/eclipse/ui/navigator/internal/filters/CommonFilterDescriptor.java:96-123 | with a single expression child the result is that expression's filter whatever the `class` attribute; without one, the instantiated class, or the skeleton filter with one error logged when instantiation fails; with an expression the log is one warning when a `class` attribute is given and empty otherwise; the skeleton comes exactly from a failed instantiation; a warning is logged exactly when an expression and a `class` attribute are both present |
| Filters.ClassIgnoredWarning | bundles/org.eclipse.ui.navigator/src/org/eclipse/ui/navigator/internal/filters/CommonFilterDescriptor.java:106-109 | the warning text is a fixed head, then the declaring namespace, then a fixed tail saying that only the Core Expression is respected |
| Filters.CommonFilterDescriptor.ToString | bundles/org.eclipse.ui.navigator/src/org/eclipse/ui/navigator/internal/filters/CommonFilterDescriptor.java:128-130 | the text is "CommonFilterDescriptor[", then the name (or "null"), then " (", then the id, then ")]" |
| Filters.ExpressionBeatsClass | bundles/org.eclipse.ui.navigator/src/org/eclipse/ui/navigator/internal/filters/CommonFilterDescriptor.java:99-111 | when an expression is recorded, the outcome of instantiating the `class` attribute plays no part in the created filter or the log |
| Filters.ToStringOfUnnamed | bundles/org.eclipse.ui.navigator/src/org/eclipse/ui/navigator/internal/filters/CommonFilterDescriptor.java:128-130 | a descriptor without a name prints "CommonFilterDescriptor[null (" + id + ")]" |

## Left out

- `getInstance` and its lazy, synchronized, once-only initialisation: they exist for concurrency. The model has a constructor for an empty registry.
- The `synchronized (commonWizardDescriptors)` block of `addCommonWizardDescriptor`: concurrency is not modelled; the method runs as one sequential step.
- Null wizard types: wizard types and the queried type are non-null strings. A Java `HashMap` also accepts a null key, so a descriptor whose type is null is not modelled.
- The registry's object invariant `Valid()` (every entry non-empty, every descriptor under its own type) is kept by every mutator; the queries do not need it, and `WellFormedLookup` states what it gives a caller.
- `init`/`readRegistry` of the wizard registry: the walk over the extension registry belongs to `NavigatorContentRegistryReader`, which is not part of this model. `ReadElement` models one step of it.
- The superclass `NavigatorContentRegistryReader.readElement`: not part of this model; its answer is the `superResult` parameter.
- Building a `CommonWizardDescriptor` from an element: its file is not part of this model. The outcome, a descriptor or a `WorkbenchException`, is the `construction` parameter.
- `CommonWizardDescriptor.isEnabledFor`: it evaluates Core Expressions in code outside this model. It is the uninterpreted `isEnabledFor` parameter of both queries.
- Descriptor equality: `CommonWizardDescriptor`'s own equality is not visible. A descriptor carries a `handle` that stands for its object identity, which a `HashSet` compares when `equals` is not overridden.
- Aliasing of the `HashSet` stored in the map: Java adds to the set that the map already holds. The model writes the grown set back under the same key, which gives the same table.
- Iteration order: the queries' results are specified as multisets of ids. The order of the returned arrays is unspecified in Java too.
- Evaluating `CustomAndExpression` and `CoreExpressionFilter`: outside this model. Expressions and filters are opaque tags.
- `createExecutableExtension`: its outcome is the `instantiation` parameter, with a created object or a runtime or core exception. A failed `(ViewerFilter)` cast counts as a runtime exception.
- Exceptions raised while logging the warning or building a `CoreExpressionFilter`: not modelled.
- Logging: the log entries of `createFilter` are part of its result. The error logged by `readElement` is not modelled.
- Translation of `%key` attribute values by the extension registry: attributes are taken as given.
- JavaLang.EqualsIgnoreCase: case mapping covers ASCII letters only, whereas Java folds all of Unicode. No other character has upper or lower case `t`, `r`, `u` or `e`, so this is exact for comparison with "true".
