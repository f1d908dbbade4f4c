# Docu document model

Docu turns a .NET assembly and its XML documentation file into HTML. Before
any page is rendered, `DocumentModel.Create` turns the documented members
(types, methods and properties, already matched to their XML comments) into a
tree: namespaces, then the types in each namespace, then the methods and
properties of each type. The same step links every reference to a type or
member. A reference may sit in a comment (`<see cref="..."/>`), in a type's
parent or interfaces, or in a parameter or return type. A reference that names
something documented is linked to that node. A reference that names anything
else becomes an *external* reference and keeps its name.

This project models that builder and resolver, and `DeclaredType`, the
document node of a type:

- `Create` runs four passes over the members. Pass 1 adds namespaces. Pass 2
  adds types. Pass 3 adds methods and forces their owner types into
  existence. Pass 4 does the same for properties.
- Each pass registers identifiers in a `matchedAssociations` table. The first
  registration of an identifier wins.
- Every node created along the way goes on a list of pending references.
  `Create` then resolves each pending reference against the table and sorts
  the tree by name.
- `DeclaredType.Unresolved` builds a placeholder for a reflected type. The
  placeholder gets its direct parent and its direct interfaces.
  `GetInterfaces` and `FilterInterfaces` drop every interface that one of the
  type's other interfaces or its base type already implies.
- `DeclaredType.Resolve` turns a placeholder into the documented type its
  identifier names. It copies that type's namespace, parent and interfaces,
  and then resolves those too.

The document graph is a value `Entities.Graph`: maps from node ids to
namespace, type, method and property nodes, plus a counter for fresh ids.
References are node ids, so sharing between nodes is explicit. The passes
work on a `Builder.Session`, which holds the graph, the table, the namespace
list and the pending references. One invariant, `Builder.Building`, holds
between any two steps. It says five things:

- the graph is well formed;
- the table names only nodes that are present;
- every listed namespace and every registered type is found under its own
  identifier, and is the first node that was registered under it;
- every registered type and method is pending;
- every pending reference points at a node that is not resolved yet.

Reflection's `System.Type` becomes a finite table `HostTypes.Host`. It holds
each type's name, pretty name, namespace name, base type and the full
`GetInterfaces()` list, plus a rank that makes the inheritance graph acyclic.
`DocumentModel.DocumentModel` is the class with the `Create` entry point. It
keeps the graph and the table as fields.

## Model

| member | source | states |
|---|---|---|
| DocumentModel.DocumentModel.constructor | src/Docu.Console/Documentation/DocumentModel.cs:17-20 | a new model over a well-formed host has an empty table and a valid graph |
| DocumentModel.DocumentModel.Create | src/Docu.Console/Documentation/DocumentModel.cs:22-58 | after the table is cleared and the four passes run, the table holds exactly the identifiers the members give. The returned namespaces are listed once each, are registered under their own identifiers, hold every registered type under its type's namespace, and are in name order, as are their types and those types' members. Every registered type and method is among the pending references, and every pending reference ends `Resolved` when its identifier is in the table and `External` otherwise |
| DocumentModel.Build | src/Docu.Console/Documentation/DocumentModel.cs:27-47 | starting from an empty table, the four passes keep the builder invariant and register exactly `RegisteredKeys` of the members |
| DocumentModel.Finish | src/Docu.Console/Documentation/DocumentModel.cs:49-55 | from any state the passes can reach, resolution cannot fail (the table is sound). It leaves every pending reference `Resolved` when its identifier is in the table and `External` otherwise, and keeps the namespace forest. The final sort orders namespaces, types and members by name |
| DocumentModel.NamespacePass | src/Docu.Console/Documentation/DocumentModel.cs:29-32 | pass 1 keeps every entry and adds exactly the namespace identifiers of the documented types |
| DocumentModel.TypePass | src/Docu.Console/Documentation/DocumentModel.cs:34-37 | after pass 1, pass 2 keeps every entry and adds exactly the type identifiers of the documented types |
| DocumentModel.MethodPass | src/Docu.Console/Documentation/DocumentModel.cs:39-42 | pass 3 keeps every entry and adds, for each method with reflection info, its owner's namespace, its owner type and its own identifier |
| DocumentModel.PropertyPass | src/Docu.Console/Documentation/DocumentModel.cs:44-47 | pass 4 keeps every entry and adds, for each property with reflection info, its owner's namespace and owner type, but never the property itself |
| DocumentModel.KeysOfMember | src/Docu.Console/Documentation/DocumentModel.cs:29-47 | an identifier is registered by a pass exactly when some member gives it in that pass |
| DocumentModel.RegisteredKeysMember | src/Docu.Console/Documentation/DocumentModel.cs:29-47 | an identifier is in the final table exactly when some member gives it in one of the four passes |
| DocumentModel.RegisteredNoProperty | src/Docu.Console/Documentation/DocumentModel.cs:195-196 | no property identifier is ever registered, because `AddProperty` only appends the property |
| DocumentModel.MethodAddedKeys | src/Docu.Console/Documentation/DocumentModel.cs:135-140 | one `AddMethod` adds exactly the owner's namespace key, the owner's type key and the method's key to the table, and keeps every entry |
| DocumentModel.AddNamespace | src/Docu.Console/Documentation/DocumentModel.cs:199-209 | the session becomes `NamespaceStep`: unchanged when a listed namespace already has the identifier; otherwise a new, empty namespace is listed last and registered |
| DocumentModel.NamespaceStepBuilding | src/Docu.Console/Documentation/DocumentModel.cs:199-209 | `AddNamespace` keeps the builder invariant. Afterwards `Find` finds the namespace and its identifier is registered |
| DocumentModel.NamespaceStepKeys | src/Docu.Console/Documentation/DocumentModel.cs:203-207 | a namespace not found by `Find` is not registered either, so the `Add` on the table cannot meet a duplicate key. The step adds exactly that key, keeps every entry, leaves the pending references alone and changes no existing node |
| DocumentModel.BuildType | src/Docu.Console/Documentation/DocumentModel.cs:213-225 | a new unresolved node for the type, in the given namespace, carrying the type's identifier and name. It starts as a placeholder with its parent and interfaces. Its summary is parsed from the XML, and the summary's references follow the pending ones |
| DocumentModel.DeclareType | src/Docu.Console/Documentation/DocumentModel.cs:213-225 | building the type node keeps the invariant and changes neither the table nor the namespace list. The node sits in the namespace `Find` returns, and it has no summary without XML |
| DocumentModel.AddType | src/Docu.Console/Documentation/DocumentModel.cs:211-233 | after the build, a type whose identifier is registered leaves table, namespace and pending list as they were (first wins). Otherwise the node is registered, pending and appended to its namespace. The invariant holds either way |
| DocumentModel.AddOwner | src/Docu.Console/Documentation/DocumentModel.cs:74-91 | the owner lookup adds exactly the owner's namespace key and type key and keeps every entry. The table then names a type node for the owner |
| DocumentModel.FindOwnerType | src/Docu.Console/Documentation/DocumentModel.cs:84-91 | once the owner's namespace is registered, the lookup finds the registered type or forces one, adding only the type key |
| DocumentModel.AddParameters | src/Docu.Console/Documentation/DocumentModel.cs:112-133 | one parameter node per reflected parameter, in order, each with a new placeholder of its type and its parsed `<param>` comment. Each parameter's type reference and comment references are added to the pending list in turn |
| DocumentModel.BuildMethod | src/Docu.Console/Documentation/DocumentModel.cs:93-133 | the method node has the method's identifier and name, a return-type placeholder, its summary and its parameters. The pending list grows by the return type, the summary references and the parameters' references, in that order |
| DocumentModel.DeclareMethod | src/Docu.Console/Documentation/DocumentModel.cs:93-133 | building the method keeps the invariant and changes neither the table nor the namespace list |
| DocumentModel.RegisterMethod | src/Docu.Console/Documentation/DocumentModel.cs:135-140 | a method whose identifier is registered is dropped (first wins). Otherwise it is registered, pending and appended to its owner |
| DocumentModel.AddMethod | src/Docu.Console/Documentation/DocumentModel.cs:70-141 | a member without reflection info changes nothing. Otherwise the owner lookup, the build and the duplicate check run in sequence, and the invariant holds throughout |
| DocumentModel.BuildProperty | src/Docu.Console/Documentation/DocumentModel.cs:175-193 | the property node has the property's identifier, name, a return-type placeholder and its summary. The pending list grows by the return type, then the summary references |
| DocumentModel.DeclareProperty | src/Docu.Console/Documentation/DocumentModel.cs:175-193 | building the property keeps the invariant and changes neither the table nor the namespace list |
| DocumentModel.AttachProperty | src/Docu.Console/Documentation/DocumentModel.cs:195-196 | the property is pending and appended to its owner, with no duplicate check and no registration |
| DocumentModel.AddProperty | src/Docu.Console/Documentation/DocumentModel.cs:152-197 | a member without reflection info changes nothing. Otherwise the owner lookup, the build and the append run in sequence, and the invariant holds throughout |
| DocumentModel.GetReferencesFromComment | src/Docu.Console/Documentation/DocumentModel.cs:143-150 | the pending references grow by the references of the comment's referrer blocks, in order |
| Members.ReferencesIn | src/Docu.Console/Documentation/DocumentModel.cs:143-150 | a reference is collected exactly when some block of the comment is a referrer that carries it; there are at most as many as there are blocks |
| Members.ReferencesInConcat | src/Docu.Console/Documentation/DocumentModel.cs:143-150 | the references of two comments written one after the other are those of the first, then those of the second |
| Members.Parse | src/Docu.Console/Documentation/DocumentModel.cs:102-109 | the stand-in parser returns one block per element of the comment, each a text or a new unresolved cross-reference |
| Builder.FindNamespace | src/Docu.Console/Documentation/DocumentModel.cs:76 | `Find` in the namespace list returns a listed namespace with the identifier, and no namespace listed before it has that identifier; it returns none exactly when no listed namespace has it |
| Builder.FindType | src/Docu.Console/Documentation/DocumentModel.cs:84 | `FirstOrDefault` over a namespace's types returns a listed type with the identifier, and no type listed before it has that identifier; it returns none exactly when no listed type has it |
| Builder.NamespaceKeyListed | src/Docu.Console/Documentation/DocumentModel.cs:203-207 | between steps, a namespace identifier is registered exactly when `Find` finds a listed namespace with it, and then the table names that namespace |
| Builder.FindTypeRegistered | src/Docu.Console/Documentation/DocumentModel.cs:84-91 | between steps, the owner's namespace lists a type with the owner's identifier exactly when that identifier is registered, and then the table names that node |
| Builder.EntriesSound | src/Docu.Console/Documentation/DocumentModel.cs:49-53 | every type registered between steps is a type node with a namespace, so `Resolve` never meets a wrong kind or a missing namespace |
| Builder.BuildingListing | src/Docu.Console/Documentation/DocumentModel.cs:205-207 | listing and registering a new namespace keeps the invariant, and `Find` then finds it |
| Builder.BuildingRegistering | src/Docu.Console/Documentation/DocumentModel.cs:230-232 | registering a new type in the namespace of its host type keeps the invariant |
| Builder.TypeRegistrationKeys | src/Docu.Console/Documentation/DocumentModel.cs:227-232 | the type duplicate check adds exactly the type's key and keeps every entry. The key names the first node registered under it |
| Builder.MethodRegistrationKeys | src/Docu.Console/Documentation/DocumentModel.cs:135-140 | the method duplicate check adds exactly the method's key, keeps every entry and leaves the namespace list alone |
| Builder.BuildingMethodRegistration | src/Docu.Console/Documentation/DocumentModel.cs:135-140 | the method duplicate check keeps the invariant whichever way it goes |
| Builder.BuildingPropertyAdding | src/Docu.Console/Documentation/DocumentModel.cs:195-196 | appending a property keeps the invariant |
| Entities.Verdict | src/Docu.Console/Documentation/DocumentModel.cs:51-52 | a node that resolution reaches is resolved when its identifier is registered and external otherwise; never unresolved |
| Resolution.ResolveOne | src/Docu.Console/Documentation/DocumentModel.cs:50-52 | an already resolved reference is skipped. A type reference is resolved by `DeclaredType.Resolve`; other references never fail. Every reference that was unresolved and succeeds ends with its verdict: `Resolved` when its identifier is in the table, `External` otherwise. Nothing outside the settling footprint changes, and under a sound table it succeeds |
| Resolution.ResolveReferences | src/Docu.Console/Documentation/DocumentModel.cs:49-53 | the loop stops at the first failure. Under a sound table it never fails. On success every pending reference is resolved, and every one that was unresolved before the loop is `Resolved` when its identifier is in the table and `External` otherwise. It changes only what resolution may change |
| Resolution.SettlesTransitive | src/Docu.Console/Documentation/DocumentModel.cs:49-53 | the footprint of resolution composes over successive references |
| Resolution.SettlesKeepsResolved | src/Docu.Console/Documentation/DocumentModel.cs:51 | whatever was resolved or external stays so under later resolution steps |
| Resolution.SettlesVerdict | src/Docu.Console/Documentation/DocumentModel.cs:49-53 | under the footprint of resolution a reference keeps its identifier, and its state either stays or becomes its verdict |
| Resolution.SettlesFromFrame | src/Docu.Console/Documentation/DeclaredType.cs:48-78 | a type's resolution stays within the footprint of the whole resolve loop |
| Output.ForestBuilt | src/Docu.Console/Documentation/DocumentModel.cs:29-47 | between steps, the namespace list is a forest: namespaces registered under their own identifiers, listed once, and holding every registered type under its type's namespace |
| Output.ForestDistinct | src/Docu.Console/Documentation/DocumentModel.cs:199-209 | no two namespaces of the forest share an identifier |
| Output.ForestSettles | src/Docu.Console/Documentation/DocumentModel.cs:49-53 | resolution keeps the forest |
| Output.ForestReordered | src/Docu.Console/Documentation/DocumentModel.cs:55 | sorting, which permutes the namespace list and the member lists, keeps the forest |
| Output.NoDuplicatesPermuted | src/Docu.Console/Documentation/DocumentModel.cs:62 | a permutation of a list without duplicates has none |
| Output.VerdictsReordered | src/Docu.Console/Documentation/DocumentModel.cs:55 | sorting changes no state and no identifier, so every pending reference keeps its verdict |
| Output.AllResolvedLoop | src/Docu.Console/Documentation/DocumentModel.cs:49-53 | once the loop has run to its end, every pending reference is resolved or external |
| Output.AllResolvedReordered | src/Docu.Console/Documentation/DocumentModel.cs:55 | sorting does not undo resolution |
| Sorting.SortModel | src/Docu.Console/Documentation/DocumentModel.cs:60-68 | the namespace list becomes a permutation of itself in name order. Each namespace's types are then in name order, and so are each type's methods and properties. Only the order of lists changes |
| Sorting.SortModelStep | src/Docu.Console/Documentation/DocumentModel.cs:64-67 | sorting one more namespace keeps the namespaces sorted before it sorted |
| Sorting.SortNamespace | src/Docu.Console/Documentation/DocumentModel.cs:66 | `Namespace.Sort` puts its types in name order and sorts each type's members, touching no other namespace |
| Sorting.SortTypes | src/Docu.Console/Documentation/DocumentModel.cs:66 | every listed type ends with sorted members, and a type sorted before stays sorted |
| Sorting.ReorderedNames | src/Docu.Console/Documentation/DocumentModel.cs:60-68 | reordering lists keeps the name of every node |
| Names.SortByName | src/Docu.Console/Documentation/DeclaredType.cs:92-93 | the result is in name order (`CompareTo`, here ordinal) and is a permutation of the input |
| Names.NameLeTransitive | src/Docu.Console/Documentation/DeclaredType.cs:92-93 | the name comparison is transitive |
| Names.NameLeTotal | src/Docu.Console/Documentation/DeclaredType.cs:92-93 | any two names are comparable |
| Entities.ResolveNamespace | src/Docu.Console/Documentation/DocumentModel.cs:51-52 | an unresolved namespace becomes resolved when its identifier is registered and external otherwise; nothing else changes |
| Entities.ResolveMethod | src/Docu.Console/Documentation/DocumentModel.cs:51-52 | the same rule for a method node |
| Entities.ResolveProperty | src/Docu.Console/Documentation/DocumentModel.cs:51-52 | the same rule for a property node |
| Entities.NamespaceAddType | src/Docu.Console/Documentation/DocumentModel.cs:232 | `Namespace.AddType` appends the type to the namespace and changes nothing else |
| HostTypes.KeepDirect | src/Docu.Console/Documentation/DeclaredType.cs:125-138 | an interface is kept exactly when it is listed and no other listed interface, nor the base type, lists it; order is kept |
| HostTypes.BelowIsListed | src/Docu.Console/Documentation/DeclaredType.cs:140-155 | whatever the interface and base-type edges reach from a type is in that type's `GetInterfaces()` list |
| HostTypes.SubsequenceIsKeepDirect | src/Docu.Console/Documentation/DeclaredType.cs:125-155 | a subsequence of the interface list that drops exactly the implied interfaces is the direct-interface list |
| DeclaredType.FilterInterfaces | src/Docu.Console/Documentation/DeclaredType.cs:140-155 | the result is a subsequence of the input. It drops only interfaces reachable from the given type and keeps none of that type's own interfaces |
| DeclaredType.GetInterfaces | src/Docu.Console/Documentation/DeclaredType.cs:125-138 | the result is exactly the direct interfaces: those that neither another interface of the type nor its base type implies, in their original order |
| DeclaredType.Unresolved | src/Docu.Console/Documentation/DeclaredType.cs:101-123 | a new unresolved node for the type, in the given namespace. Its parent placeholder exists exactly when a base type does, its interfaces are placeholders for the direct interfaces, and nothing existing changes |
| DeclaredType.NewReference | src/Docu.Console/Documentation/DeclaredType.cs:105-119 | a parent or interface placeholder gets a new namespace placeholder of its own |
| DeclaredType.InterfacePlaceholders | src/Docu.Console/Documentation/DeclaredType.cs:113-120 | one placeholder per direct interface, in order |
| DeclaredType.UnresolvedNamed | src/Docu.Console/Documentation/DeclaredType.cs:157-160 | a new unresolved node with the given identifier and namespace, and no represented type, parent or interfaces |
| DeclaredType.Resolve | src/Docu.Console/Documentation/DeclaredType.cs:48-78 | an identifier that is not registered makes the type external and changes nothing else. One that names a non-type fails with `InvalidOperationException` and changes nothing. One that names a type copies that type's namespace, represented type, parent and interfaces, and a missing namespace fails with `NullReferenceException`. Under a sound table it succeeds. On success the type carries its verdict: `Resolved` when its identifier is registered, `External` otherwise |
| DeclaredType.ResolveFound | src/Docu.Console/Documentation/DeclaredType.cs:50-74 | for an identifier that names a type, the copy is made. On success the node and its links are resolved |
| DeclaredType.ResolveLinks | src/Docu.Console/Documentation/DeclaredType.cs:63-72 | the namespace, the parent and every interface of the copied node end resolved or external, and the node itself keeps its copied fields |
| DeclaredType.ResolveOwnNamespace | src/Docu.Console/Documentation/DeclaredType.cs:63-64 | the copied namespace is resolved unless it is already resolved |
| DeclaredType.ResolveFaces | src/Docu.Console/Documentation/DeclaredType.cs:68-72 | each interface is resolved in turn, and the first failure stops the loop |
| DeclaredType.ResolveLink | src/Docu.Console/Documentation/DeclaredType.cs:65-72 | a parent or interface that is not yet resolved is resolved recursively, at a lower rank |
| DeclaredType.MarkResolved | src/Docu.Console/Documentation/DeclaredType.cs:74 | the node becomes resolved, with its fields as they were |
| DeclaredType.FullNameParts | src/Docu.Console/Documentation/DeclaredType.cs:38-46 | the full name is the namespace's name and a dot followed by the pretty name, or the pretty name alone without a namespace |
| DeclaredType.PlaceholderPrettyName | src/Docu.Console/Documentation/DeclaredType.cs:38-41 | a placeholder shows the host's pretty name of its type |
| DeclaredType.ExternalKeepsNames | src/Docu.Console/Documentation/DeclaredType.cs:76-77 | turning a type external keeps its pretty name and full name |
| DeclaredType.NamedReferenceNames | src/Docu.Tests/Documentation/DocumentModelGeneratorTests/General.cs:136-145 | an external cross-reference named `First` in namespace `Example` shows `First` and `Example.First` |
| DeclaredType.ResolvedRendersLikeMatch | src/Docu.Console/Documentation/DeclaredType.cs:58-61 | a resolved placeholder renders with the same pretty name and full name as the documented type it was matched to |
| DeclaredType.AddMethod | src/Docu.Console/Documentation/DeclaredType.cs:80-83 | the method is appended to the type's methods and nothing else changes |
| DeclaredType.AddProperty | src/Docu.Console/Documentation/DeclaredType.cs:85-88 | the property is appended to the type's properties and nothing else changes |
| DeclaredType.Sort | src/Docu.Console/Documentation/DeclaredType.cs:90-94 | the methods and the properties are each put in name order as permutations of themselves, and nothing else changes |

## Left out

- Reflection (`System.Type`, `MethodInfo`, `PropertyInfo`, `ParameterInfo`) is replaced by the finite table `HostTypes.Host` and by info records. `IsInterface`, generic arguments and other reflection details are not modelled.
- The XML comment parser (`ICommentContentParser`) and the XML itself are not part of this model. `Members.Parse` is a stand-in that maps each comment element to a text block or to a new unresolved cross-reference.
- Identifiers (`Identifier.FromType`, `FromMethod`, `FromProperty`, `CloneAsNamespace`) are derived structurally from the host type, the owner, the member name and the parameter types. `association.Name` is taken to be the identifier built from its reflection info.
- Name rendering is reduced to strings from the host table. Ordinal string order stands in for `string.CompareTo`, which is culture-sensitive.
- The code of `Namespace.Resolve`, `Method.Resolve` and `Property.Resolve` is not part of this model. Each is taken to mark its node resolved when the identifier is in the table and external otherwise (`Entities.Verdict`). Because properties are never registered, this rule makes every pending property external.
- The code of `Namespace.AddType`, `Namespace.Sort` and `Namespace.FullName` is not part of this model. They are taken to append, to sort types by name and then sort each type, and to give the namespace's name.
- Sorting.SortModel: promises name order and a permutation, not stability. `List<T>.Sort` is not stable, and equal names may come out in any order.
- The document graph is a value: maps from node ids to records. Updates in place and aliasing between C# objects become explicit replacements of nodes under their ids, so the model does not capture object identity beyond node ids.
- New namespaces are created in the resolved state. A new method or property node takes its id when it is registered or appended, not when it is built.
- DocumentModel.AddType: requires the type's namespace to be listed already. Pass 1 and `AddOwner` guarantee this in every call the source makes; the source would pass a null namespace otherwise.
- Exceptions become `Entities.Outcome` values. The resolve loop stops at the first failure, as the exception would. The model proves that no failure happens for any state the passes can reach.
- `UndocumentedMethod` and the other parsing-model types are not part of this model. Members are given as the `Members.Member` datatype.
- `General.cs` has no one-to-one counterparts here. Its expectations correspond to the contracts of `Create`, `Resolve` and the name lemmas.

Two consequences of the code are worth knowing:

- `FilterInterfaces` walks the whole base-type chain, and the base's `GetInterfaces()` already lists inherited interfaces. So an interface that a grandparent implements and the type declares again is dropped from the type's direct interfaces.
- The parent and interface placeholders of a type that ends external are not resolved by `DeclaredType.Resolve`. They stay unresolved unless they are pending references themselves.
