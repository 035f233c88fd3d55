# java-model in Dafny

A model of the semantic core of `java-model`, a library that turns parsed Java
source into a tree of compilation units and type declarations and answers
questions about it. The model covers:

- **the type tree and project index.** A `Project` holds compilation units.
  Each unit owns a tree of type declarations. The project builds a dictionary
  from qualified name to declared type and rejects duplicate names. It can
  find a type, find the units of a package, visit the types in pre-order, and
  walk the parent chain.
- **write-once resolution caches.** `ObjectType.resolve` and
  `Annotation.resolve` store their first result. `findAnnotationValue`
  searches annotations by resolved qualified name.
- **name resolution (`resolve`).** A prioritised chain: type parameters, then
  enclosing and nested types, a single import, a top-level type of the same
  package, the fixed `java.lang` list, and wildcard imports. A qualified name
  is resolved by first resolving its qualifier.
- **JavaBean properties.** The getter and setter shapes, `propertyName`,
  `getterName` and `setterName`, capitalisation with the acronym rule, and
  `properties()`. `properties()` merges fields, getters and setters by name.
- **small helpers.** The primitive and box tables, `TypeReference`, and
  `createTypeMapper`, which renders a type to a string through caller
  callbacks with default renderings for arrays and wildcards.
- **the older `model.ts` tree.** Its qualified name, `visitTypes` and
  `findImport` are proved to agree with the current model's. Its `toJSON`
  parent marker is modelled too.

Back-references to parents are not stored. A declared type is addressed by a
`Container`: the index of its compilation unit plus the positions of the
nested types leading to it. Parent-chain loops step along that path.

Modules, one per file:
- `Wrappers`: `Option` and `Result`.
- `Common`: `common.ts` and string helpers.
- `PrimitiveTypes` and `TypeReferences`.
- `Model`: the data.
- `TypeTree`: paths, qualified names, visit order and parent chains.
- `Projects`: the `Project` class and its index.
- `Resolution`.
- `Caches`.
- `Properties`.
- `TypeMapper`.
- `LegacyModel`.

## Model

| member | source | states |
|---|---|---|
| Common.FindIndex | src/common.ts:16-21 | the position found holds the name and no earlier element does; none is found exactly when no element has the name |
| Common.FindObject | src/common.ts:16-21 | the result has the name and is the first element with it; none is found exactly when no element has the name |
| Common.RequireObject | src/common.ts:23-29 | succeeds exactly when some element has the name, returning `findObject`'s answer; otherwise the error is "Required object not found: <name>" |
| Common.QualifiedName | src/common.ts:31-33 | with no package the result is the name; otherwise it is package + "." + name; it always ends with the name |
| Common.SplitName | src/resolve.ts:16-17 | splitting at the last '.' gives back the input when rejoined; the name part has no '.'; there is a qualifier exactly when the input has a '.', and it is shorter than the input |
| Common.SimpleName | src/Project.ts:242-244 | the simple name has no '.' and is a suffix of the qualified name |
| Common.SplitQualifiedName | src/resolve.ts:16-17 | splitting a joined qualifier and name gives back the same qualifier and name |
| Common.Repeat | src/Project.ts:204-206 | `"[]".repeat(n)` has length n times the piece's length |
| Common.RepeatSucc | src/Project.ts:204-206 | one more repetition appends exactly one more piece |
| Common.FirstRepeatAt | src/Project.ts:36-42 | the first duplicate reported is the earliest element that repeats an earlier one |
| Common.FirstRepeatNone | src/Project.ts:36-42 | no duplicate is reported exactly when all elements are distinct |
| PrimitiveTypes.NewPrimitiveType | src/PrimitiveType.ts:23-28 | accepts exactly the nine primitive names and keeps the name; any other name fails with "invalid primitive type name: <name>" |
| PrimitiveTypes.IsPrimitiveType | src/PrimitiveType.ts:35-37 | holds exactly for the nine names `boolean`, `byte`, `char`, `double`, `float`, `int`, `long`, `short`, `void` |
| TypeReferences.TypeReference.QualifiedName | src/TypeReference.ts:25-27 | a reference's qualified name rebuilds the same reference |
| TypeReferences.TypeReference.Unbox | src/TypeReference.ts:33-39 | succeeds exactly for the nine wrapper names; other names fail with "not a box type: <name>" |
| TypeReferences.Box | src/PrimitiveType.ts:30-32 | the box of every primitive is a wrapper reference |
| TypeReferences.BoxedIffWrapper | src/TypeReference.ts:29-31 | `boxed()` holds exactly for the nine `java.lang` wrapper names |
| TypeReferences.TypeReference.Boxed | src/TypeReference.ts:29-31 | a reference is boxed exactly when its qualified name is one of the `java.lang` wrapper names |
| TypeReferences.BoxExamples | src/PrimitiveType.ts:3-13 | `int` boxes to `java.lang.Integer`, `char` to `java.lang.Character`, `void` to `java.lang.Void` |
| TypeReferences.UnboxBox | src/TypeReference.ts:33-39 | unboxing the box of a primitive gives back the primitive |
| TypeReferences.BoxUnbox | src/PrimitiveType.ts:30-32 | boxing the unboxed primitive of a wrapper gives back the wrapper's name |
| TypeReferences.BoxInjective | src/PrimitiveType.ts:3-13 | different primitives have different boxes |
| Model.NoModifiersPublicOnlyInInterface | src/Project.ts:532-537 | a member with no modifiers is public exactly when its owner is an interface |
| Model.IsPublic | src/Project.ts:532-537 | a member declared `public` and neither `private` nor `protected` is public whatever its owner |
| Model.ObjectQualifiedName | src/Project.ts:154-156 | an object type's qualified name ends with its simple name |
| Model.ArrayDimensionAppends | src/Project.ts:204-210 | each extra dimension appends exactly one `[]` to an array's name and to its qualified name |
| Model.TypeName | src/Project.ts:204-210 | an array's name ends with one `[]` per dimension |
| Model.TypeQualifiedName | src/Project.ts:204-210 | an object type's qualified name ends with its simple name; an array's ends with one `[]` per dimension |
| TypeTree.TypeQualifiedName | src/Project.ts:334-340 | a declared type's qualified name ends with its simple name |
| TypeTree.QualifiedNameJoinsPath | src/Project.ts:334-340 | a qualified name is the package, if any, followed by the names of the enclosing types and the type itself, joined by '.' |
| TypeTree.NestedQualifiedName | src/Project.ts:334-340 | a nested type's qualified name is its container's qualified name + "." + its name |
| TypeTree.VisitFromShape | src/Project.ts:119-130 | a walk from position i of a type list visits only paths under that list, starting at i or later |
| TypeTree.VisitFromSorted | src/Project.ts:119-130 | the walk is in strict pre-order: parents before children, earlier siblings before later ones |
| TypeTree.VisitFromComplete | src/Project.ts:119-130 | a path is visited exactly when it names a type under the list at position i or later |
| TypeTree.VisitTypesOrder | src/Project.ts:119-130 | `visitTypes` visits every declared type of a unit exactly once, in pre-order and declaration order |
| TypeTree.VisitTypes | src/Project.ts:119-130 | a unit with at least one type visits something, and the first visit is its first top-level type |
| TypeTree.CompilationUnitOf | src/Project.ts:78-84 | the loop up the parent chain stops at the element's own compilation unit |
| TypeTree.ContainerOf | src/Project.ts:86-92 | the loop stops at the nearest enclosing type declaration or compilation unit, passing only members |
| TypeTree.AddressOf | src/Project.ts:78-92 | the parent chain of a model address starts at its compilation unit, followed by one nested-type step per index of its path |
| TypeTree.ContainerAddresses | src/Project.ts:78-92 | for the type at an address and for a member of it, `compilationUnit()` is the address's unit; `container()` of the type is the type itself, and of its member is the type |
| TypeTree.VisitParents | src/Project.ts:353-360 | the callback receives every enclosing type, innermost first, and never the type itself or the unit |
| TypeTree.FindOutwardInnermost | src/Project.ts:362-375 | the answer comes from the innermost level where the callback answers; none means no level answers |
| TypeTree.FindObjectOutward | src/Project.ts:363-375 | the `findObject` loop returns the outward search's answer |
| Projects.TypesOfMembers | src/Project.ts:47-51 | the types visited in the first n units are exactly the declared types of those units |
| Projects.TypesOfDistinct | src/Project.ts:47-51 | no type is visited twice |
| Projects.TypesOfPrefix | src/Project.ts:47-51 | visiting more units extends the earlier visit order |
| Projects.VisitAllTypes | src/Project.ts:47-51 | the project's `visitTypes` visits every declared type exactly once |
| Projects.IndexOfSound | src/Project.ts:36-40 | every entry of the index maps a name to a visited type whose qualified name is that name |
| Projects.IndexOfComplete | src/Project.ts:36-40 | every visited type's qualified name is a key of the index |
| Projects.IndexedNamesUnique | src/Project.ts:34-44 | if the index maps every type's name to that type, qualified names are unique |
| Projects.DistinctNamesIffUnique | src/Project.ts:34-44 | the visited names are pairwise different exactly when no two declared types share a qualified name |
| Projects.DistinctNamesIsDistinct | src/Project.ts:34-44 | the pairwise test and the list-distinctness test agree |
| Projects.NoRepeatIffUnique | src/Project.ts:34-44 | no repeated name is found exactly when qualified names are unique |
| Projects.ExtendIndex | src/Project.ts:38-39 | entering a new name adds exactly that entry and keeps names distinct |
| Projects.RepeatFound | src/Project.ts:40-41 | a name already in the index is the first repeated name |
| Projects.EnterOutcome | src/Project.ts:36-42 | entering the remaining types gives the full index, or the error for the first repeated name |
| Projects.EnterBlocksConcat | src/Project.ts:34-44 | for any naming, entering the units' type lists one after another is entering all their types as one list, failing at the same name |
| Projects.EnterUnitsStep | src/Project.ts:34-43 | one round of the loop over units enters that unit's types, and stops at the first failure |
| Projects.EnterUnitsOutcome | src/Project.ts:34-44 | the unit-by-unit loop gives the index of all types, or "Duplicate type name" for the first repeat |
| Projects.IndexComplete | src/Project.ts:34-44 | with unique names, the index finds every declared type by its qualified name and nothing else |
| Projects.EnterUnitTypes | src/Project.ts:36-43 | the loop over one unit's visit enters each name or fails on the first one already present |
| Projects.BuildIndex | src/Project.ts:31-45 | the loop over all units builds the index of all types, or fails on the first repeated name |
| Projects.Project.constructor | src/Project.ts:31-45 | a project holds its units and their index |
| Projects.Project.Create | src/Project.ts:31-45 | succeeds exactly when qualified names are unique; on failure the error is "Duplicate type name: " + the first repeated name |
| Projects.Project.FindType | src/Project.ts:57-59 | the result is a declared type with that qualified name; none exactly when no type has it |
| Projects.FindTypeAsWritten | src/Project.ts:57-59 | the plain-object index lookup as written: a stored type exactly when the name is a key; an inherited value exactly when the name is not a key but a property of `Object.prototype` |
| Projects.ToStringFoundAsWritten | src/Project.ts:57-59 | with no type named `toString`, the as-written lookup of "toString" returns the inherited function while the corrected lookup finds nothing |
| Projects.FindTypeOfVisited | src/Project.ts:36-40 | every visited type is found again by its qualified name |
| Projects.UnitsInPackage | src/Project.ts:53-55 | exactly the units whose package equals the given one (no package matches no package), in original order |
| Projects.Project.FindCompilationUnits | src/Project.ts:53-55 | a position is returned exactly when it holds a unit of the given package |
| Projects.FindImport | src/Project.ts:132-134 | the first import ending in "." + name; none exactly when no import ends that way |
| Projects.StarImports | src/resolve.ts:73 | the result holds only imports ending in ".*", and each import ending in ".*" is in it |
| Projects.StarImportsSingle | src/resolve.ts:73 | one import is kept exactly when it ends in ".*" |
| Projects.StarImportsAppend | src/resolve.ts:73 | filtering two import lists one after the other is filtering their concatenation, so order and repeats are kept |
| Projects.RepeatedWildcardCounted | src/resolve.ts:73-80 | a wildcard import written twice counts twice, so the several-wildcards branch applies |
| Projects.PrototypeNameRejected | src/Project.ts:33-41 | a project whose only type is `toString` has unique names but is rejected as written and accepted by the corrected index |
| Projects.ToStringEntered | src/Project.ts:38-41 | the class `toString` is rejected when the prototype's names count as taken, and entered when only entered names do |
| Projects.ToStringNamed | src/Project.ts:33-41 | the one type of the `toString` project is named "toString" |
| Resolution.ParameterLevel | src/resolve.ts:31-35 | at one enclosing level the search finds a type parameter exactly when that type declares one with the name, and it finds the first such parameter |
| Resolution.DeclaredLevel | src/resolve.ts:40-42 | at one enclosing level the search finds a type exactly when that type has the name or a direct nested type with it |
| Resolution.ParameterInScopeInnermost | src/resolve.ts:30-38 | the type parameter found is the innermost enclosing declaration of the name; none means no enclosing type declares it |
| Resolution.TypeInScopeInnermost | src/resolve.ts:40-45 | the type found is named so, at the innermost level that has it (as itself or a nested type); none means no level has it |
| Resolution.SamePackageType | src/resolve.ts:61-66 | the result is a top-level type with the name in one of the listed units; none exactly when no listed unit declares one |
| Resolution.SamePackageTypeFirst | src/resolve.ts:59-67 | the result comes from the first listed unit declaring the name, at that unit's first such type |
| Resolution.FirstUnitIndex | src/resolve.ts:61-66 | gives the position in the unit list of the unit found; every earlier listed unit lacks the name, and so do the earlier top-level types of that unit |
| Resolution.PackageUnits | src/Project.ts:53-55 | `findCompilationUnits` lists exactly the units of the package in order |
| Resolution.SamePackageFound | src/resolve.ts:59-67 | a same-package type is found exactly when some unit of the package declares the name at top level |
| Resolution.SamePackageEarliest | src/resolve.ts:59-67 | the type found is in the earliest unit of the package that declares the name, at its first position |
| Resolution.SamePackageOf | src/resolve.ts:59-67 | the same-package search finds only top-level types named so; it finds none when the unit has no package |
| Resolution.ResolveFallback | src/resolve.ts:69-80 | the last lookups give a reference ending with the name, or the resolve error for this container and name |
| Resolution.ResolveInUnit | src/resolve.ts:48-80 | the unit-level rules give a declared type whose qualified name ends with the name, an external reference ending with it, or an error naming the container and the name |
| Resolution.ResolveSimple | src/resolve.ts:30-80 | every result of the simple-name chain is sound in the same sense, including type parameters of enclosing types |
| Resolution.NestedMember | src/resolve.ts:19-23 | a declared qualifier gives its direct nested type of the last segment's name, a declared type ending with that name; without one, the resolve error for the whole name |
| Resolution.ResolveMember | src/resolve.ts:17-27 | the last segment looked up in the qualifier's result keeps the result sound for the whole name; the qualifier's error is passed on |
| Resolution.Resolve | src/resolve.ts:11-81 | every result is sound: a declared type or reference ending with the simple name, an enclosing type's parameter with the name, or an error for this container and a prefix of the name |
| Resolution.ResolveError.Message | src/resolve.ts:83-92 | the message starts with "cannot resolve type: " and ends with the unresolved name |
| Resolution.ResolveInUnitWhenNothingInScope | src/resolve.ts:30-51 | with no enclosing parameter or type of the name, `resolve` goes on to the unit-level rules |
| Resolution.TypeParameterRule | src/resolve.ts:30-38 | a type parameter of the container or an enclosing type wins over everything else; the innermost one is chosen |
| Resolution.EnclosingTypeRule | src/resolve.ts:40-45 | failing that, an enclosing type or a direct nested type of one with the name wins, innermost first |
| Resolution.ImportRule | src/resolve.ts:53-57 | failing that, the first import ending in ".name" gives the project's type of that name, or a reference to it exactly when there is none |
| Resolution.SamePackageBranch | src/resolve.ts:53-80 | with no matching import, the result is a declared type exactly when the same-package search finds one, and otherwise it is what the last lookups give |
| Resolution.SamePackageRule | src/resolve.ts:59-67 | failing that, a declared type is the result exactly when the unit has a package and a unit of it declares the name at top level; the earliest one wins |
| Resolution.FallbackRule | src/resolve.ts:69-80 | failing that: a `java.lang` name, else package.name with no wildcard import, else the single wildcard's package + name, else an error |
| Resolution.QualifiedNameRule | src/resolve.ts:16-28 | a qualified name resolves its qualifier first: a nested type of a declared qualifier, a reference extended by ".name", an error for a type parameter or for a missing nested type, and the qualifier's own error passed on |
| Caches.ObjectTypeUse.constructor | src/Project.ts:148-152 | a new object type has no cached resolution |
| Caches.ObjectTypeUse.Resolve | src/Project.ts:160-167 | the result is `resolve` of the qualified name in the container; it is computed once and later calls return the cached value |
| Caches.AnnotationResolution | src/Project.ts:248-265 | a successful resolution is an annotation target and is what name resolution gives for the annotation's name |
| Caches.AnnotationRejectsOtherTypes | src/Project.ts:253-261 | a type parameter or a non-annotation declaration is rejected as an invalid type |
| Caches.Annotation.constructor | src/Project.ts:230-240 | a new annotation has no cached resolution |
| Caches.Annotation.Resolve | src/Project.ts:248-265 | returns the annotation's resolution, only ever an annotation declaration or reference; a success is cached and returned on later calls |
| Caches.ValueOf | src/Project.ts:305 | the value of the first annotation value with that name; none exactly when no value has it |
| Caches.LookupAdvance | src/Project.ts:302-307 | each annotation either stops the search (error or match) or passes it on to the next one |
| Caches.LookupFirstMatch | src/Project.ts:302-306 | the search returns the value from the first annotation whose resolved qualified name matches |
| Caches.LookupNoMatch | src/Project.ts:302-308 | with no match the search returns undefined |
| Caches.LookupFailure | src/Project.ts:302-303 | an annotation that fails to resolve before any match stops the search with its error |
| Caches.ExternalAnnotationMissed | src/Project.ts:304 | an annotation that resolves to an external reference is never matched as written, and is matched by the corrected comparison |
| Caches.ResolveAt | src/Project.ts:303 | resolving one annotation yields its resolution; its slot then holds a success, every slot that was filled keeps its value, and only the slots of that annotation's object can change |
| Caches.FindAnnotationValue | src/Project.ts:297-308 | the loop returns what the annotation-by-annotation search specifies; filled slots keep their values, every annotation the search reached holds its successful resolution, and the slots of annotations it never reached are as they were |
| Properties.Capitalize | src/Property.ts:119-121 | same length; the first character is upper-cased and the rest unchanged |
| Properties.Decapitalize | src/Property.ts:123-129 | same length; a string whose first two characters are upper case is unchanged, otherwise the first character is lower-cased and the rest unchanged |
| Properties.DecapitalizeCapitalize | src/Property.ts:119-129 | decapitalising a capitalised name that starts lower case gives it back, unless its second character is upper case |
| Properties.DecapitalizeCapitalizeAcronym | src/Property.ts:123-129 | when the second character is upper case the round trip does not give the name back |
| Properties.GetterNotSetter | src/Property.ts:15-36 | no method is both a getter and a setter |
| Properties.IsGetter | src/Property.ts:15-25 | a getter is public, not static, takes no parameters, is not void and is named `get` and more (`is` and more when boolean); what follows from it is stated by Properties.GetterNotSetter and Properties.AccessorHasName |
| Properties.IsSetter | src/Property.ts:27-36 | a setter is public, not static, void, takes one non-void parameter and is named `set` and more; what follows from it is stated by Properties.GetterNotSetter and Properties.AccessorHasName |
| Properties.GetterName | src/Property.ts:38-42 | "is" + the capitalised field name for a boolean field, "get" + it otherwise |
| Properties.SetterName | src/Property.ts:44-46 | "set" + the capitalised field name |
| Properties.PropertyName | src/Property.ts:48-58 | "get"/"set" names drop three characters and "is" names of boolean methods drop two, then decapitalise; any other method fails with "not an accessor: <name>", and only those do |
| Properties.AccessorHasName | src/Property.ts:15-58 | every getter and setter has a property name |
| Properties.AcronymPropertyName | src/Property.ts:48-50 | `getURL` names the property "URL" |
| Properties.AccessorNamesRoundTrip | src/Property.ts:38-58 | the property name of a field's getter and of its setter is the field's name, for names without the acronym shape |
| Properties.AddField | src/Property.ts:64-73 | a static field is skipped; a new name appends a property holding the field; a repeated name fails with "duplicate field name: <name>" |
| Properties.FieldPropertiesOutcome | src/Property.ts:62-75 | the field loop yields one property per non-static field in order, or the error for the first repeated field name |
| Properties.FieldFailureSticks | src/Property.ts:63-74 | once the field loop has failed, later fields do not change the error |
| Properties.SelectedName | src/Property.ts:77-78 | a name is selected exactly for getters (or setters) and is their property name |
| Properties.Attach | src/Property.ts:79-84 | an accessor with a new name appends a property; with an existing name only that property's getter (or setter) slot changes |
| Properties.LastAccessor | src/Property.ts:76-86 | the last matching accessor; none exactly when no accessor has the name |
| Properties.FirstAccessor | src/Property.ts:80-83 | the first matching accessor; none exactly when no accessor has the name |
| Properties.PassInvariantHolds | src/Property.ts:76-97 | each accessor pass keeps earlier properties, adds properties only for names first seen, fills slots with the last matching accessor, and covers every accessor |
| Properties.DuplicateFieldRejected | src/Property.ts:62-75 | `properties()` fails exactly for a class or enum with two non-static fields of the same name, naming the first repeat |
| Properties.SeedOutcome | src/Property.ts:62-75 | the field pass yields one property per non-static field, with distinct names |
| Properties.PassesOf | src/Property.ts:60-99 | the result is the getter pass over the field properties followed by the setter pass, each keeping its invariant |
| Properties.PropertiesFields | src/Property.ts:62-75 | names are distinct, and the first properties are the non-static fields, in order, with their names and types |
| Properties.PropertiesCoverAccessors | src/Property.ts:76-97 | every getter's and setter's property name is among the properties |
| Properties.SetterOnlyHasNoGetter | src/Property.ts:87-97 | a property added by the setter pass has no getter |
| Properties.PropertiesAccessors | src/Property.ts:76-97 | each property's getter and setter are the last matching getter and setter |
| Properties.PropertiesTypes | src/Property.ts:80-94 | a property without a field has its first getter's return type, or else its first setter's (void) return type |
| Properties.NewInOrderHolds | src/Property.ts:76-97 | each accessor loop appends new properties in the order in which their names' first accessors appear |
| Properties.GettersBeforeSetters | src/Property.ts:76-97 | the setter loop keeps the getter loop's properties in place under their names; those have a getter, the ones it appends have none |
| Properties.PropertiesOrder | src/Property.ts:76-97 | after the field properties come those with a getter, in the order of their names' first getters, then those without one, in the order of their names' first setters |
| Properties.Properties | src/Property.ts:60-99 | the three loops compute the specified property list or error |
| Properties.PropertiesOf | src/Property.ts:60-99 | an error arises only for a declaration whose fields become properties |
| Properties.FieldLoop | src/Property.ts:63-74 | the field loop yields the specified field properties |
| Properties.GetterLoop | src/Property.ts:76-86 | the getter loop adds the specified getter properties to those already found |
| Properties.SetterLoop | src/Property.ts:87-97 | the setter loop adds the specified setter properties to those already found |
| TypeMapper.Map | src/TypeMapper.ts:29-48 | a primitive or object type without its callback fails; a wildcard without callback and bound maps to "?" |
| TypeMapper.DefaultArrayMapping | src/TypeMapper.ts:16-18 | without an array callback, an array maps to its mapped component plus "[]" per dimension, and fails when the component does |
| TypeMapper.DefaultWildcardMapping | src/TypeMapper.ts:19-26 | without a wildcard callback, a wildcard maps to "?", or to "? super B" / "? extends B" with the bound mapped |
| TypeMapper.NoMappingFor | src/TypeMapper.ts:32-35 | a primitive or object type fails with "no mapping for <name> (<class>)" exactly when it has no callback or its callback gives `undefined` |
| TypeMapper.ArrayCallbackIgnoresComponent | src/TypeMapper.ts:36-37 | a supplied array callback replaces the default: when it does not use its mapper, the array's result is the same under any mapping with that callback, whatever the component would map to |
| TypeMapper.DefaultsNeverUndefined | src/TypeMapper.ts:37-42 | with the defaults, an array or wildcard fails only when its component or bound does |
| TypeMapper.DefaultArrayIsName | src/TypeMapper.ts:16-18 | mapping primitive and object types by name, the default array rendering equals the array's `name` |
| TypeMapper.DefaultWildcardByName | src/TypeMapper.ts:19-26 | under the same mapping, a bounded wildcard reads "? <kind> <bound name>" |
| LegacyModel.QualifiedNameAgrees | src/model.ts:87-93 | the older `qualifiedName()` equals the current model's qualified name of the same type |
| LegacyModel.LegacyQualifiedName | src/model.ts:87-93 | the qualified name ends with the type's own name |
| LegacyModel.LegacyQualifiedNameJoins | src/model.ts:87-93 | the older qualified name is the package, if any, and the names along the path joined by '.' |
| LegacyModel.VisitEachAgrees | src/model.ts:37-46 | the older recursive walk visits the same paths in the same order as the current one |
| LegacyModel.LegacyVisitTypes | src/model.ts:37-47 | visits exactly what the current model's `visitTypes` visits for the converted unit |
| LegacyModel.LegacyVisitOrder | src/model.ts:37-47 | the older `visitTypes` visits every type exactly once, in pre-order and declaration order |
| LegacyModel.FirstEnding | src/model.ts:49-51 | the first position whose import ends with the suffix; none exactly when no import does |
| LegacyModel.LegacyFindImport | src/model.ts:49-51 | a found import is one of the unit's imports and ends with "." and the name; none exactly when no import does |
| LegacyModel.FindImportAgrees | src/model.ts:49-51 | the older `findImport` returns the same first import ending in ".name" as the current one |
| LegacyModel.ToJson | src/model.ts:95-103 | the copy keeps the type's kind, name and nested types |
| LegacyModel.ParentMarker | src/model.ts:95-103 | the parent marker is "*(<compilation unit>)" exactly for a top-level type, and "*(<parent name>)" for a nested one |

## Left out

- Model.TypeQualifiedName: takes a primitive type's qualified name to be its name and a wildcard's to be "?". Neither `PrimitiveType` nor `Wildcard` defines `qualifiedName`, so as written the qualified name of an array of a primitive reads `undefined[]`.
- Parsing (`src/parse.ts`, `src/utils.ts`) is not part of this model. Parse-tree `context` fields are not modelled. Nor is JSON serialisation, except the parent marker of the older `toJSON`.
- `src/Type.ts` holds plain declarations. The expressions of `src/Expression.ts` are the datatype `Caches.Expression`, one variant per member of the union. A nested annotation is kept by its qualified name only, a number literal by its source text, and a constructor invocation's target may be any type rather than only an object or array type.
- Some imported names are not defined in `src/common.ts` or `src/Project.ts`, the modules they are imported from. `src/resolve.ts` imports `splitName` from `common.ts`, and `src/Project.ts` imports `simpleName` and `Modifier` from it. `src/Property.ts` imports `isBoolean`, `isVoid` and `NormalTypeDeclaration` from `Project.ts`. `SplitName`/`SimpleName` split at the last '.'. `IsBoolean`/`IsVoid` test for the primitive `boolean`/`void`.
- Properties.Capitalize, Properties.Decapitalize: case mapping is ASCII only; JavaScript's Unicode `toUpperCase`/`toLowerCase` is not modelled.
- Properties.PropertiesOf: properties are values in a list. The source's in-place updates of shared `Property` objects become list updates at an index. The `parent` back-reference is not modelled.
- `hasAnnotation` and `canonicalName` are not modelled. They are one-line compositions of the modelled `resolve` calls. As written, `Annotation.canonicalName` (src/Project.ts:246) and `ObjectType.canonicalName` (src/Project.ts:158) call `canonicalName()` on the resolved value, and `TypeReference` (src/TypeReference.ts:18-40) has no such method. So `hasAnnotation` (src/Project.ts:386-390) would throw a `TypeError` for any annotation that resolves to an external reference, such as `@Override`.
- `Project.resolve` delegates to `resolve`; it is modelled as `Resolution.Resolve` directly. Setting each unit's `parent` is not modelled: units are addressed by index.
- `ResolveError`'s message, "cannot resolve type: <name>", is modelled as a function without further properties.
- `Annotation.name` is modelled as a field fixed to the simple name of the qualified name at construction.
- A failed resolution throws in the source and stores nothing, so a later call resolves again. The model returns the error as a value and likewise leaves the cache empty.
- TypeMapper.Map: callbacks receive a mapper limited to types smaller than the one being mapped (components, arguments and bounds). This keeps the recursion well founded; a callback that maps an unrelated type is not modelled.
- An `ArrayType` component may itself be any type in the model; the source restricts it to primitive and object types.
- The older `findObject` and `requireObject` (src/model.ts:270-283) repeat the ones in `src/common.ts` and are modelled once, as Common.FindObject and Common.RequireObject.
- LegacyModel: the older classes' members (methods, fields, constants, annotations, references) are not modelled, only names and nesting. Its `json()` serialisation is left out.
- Where the descriptive documentation of the system and the code disagree, the model follows the code. A record's fields yield no properties: the code tests only `Class` and `Enum`. A getter does not override the type of a property that has a field.

## Findings

| source | as written | input that shows it | evidently intended | confidence | as-written member | corrected member |
|---|---|---|---|---|---|---|
| src/Project.ts:33-41 | the index is a plain object, so `this.types[qn] == undefined` is false for names inherited from `Object.prototype` | one unit without a package declaring a class named `toString`: rejected with "Duplicate type name: toString" although the name is unique; `findType("toString")` likewise sees the inherited function | only names entered by the loop count as taken | not executed | Projects.PrototypeNameRejected | Projects.EnterUnitsOutcome |
| src/Project.ts:297-308 | compares `resolved.qualifiedName === qualifiedName`, but on a `TypeReference` `qualifiedName` is a method, never equal to a string | an annotation `@Foo` resolving to the external reference `x.Foo` is never found by `findAnnotationValue(annotations, "x.Foo", name)` | compare the reference's qualified name | not executed | Caches.ExternalAnnotationMissed | Caches.FindAnnotationValue |
