# Hardentools: the templated Office registry rule

Hardentools disables risky Windows features by writing registry values. Most of its Office
settings are written by one kind of rule, `OfficeRegistryRegExSingleDWORD` (office.go).
Such a rule holds a path template with two `%s` holes, a list of Office versions, a list of
Office apps, a value name and the DWORD to write. Its `Harden(harden)` and `IsHardened()` expand
it into one `RegistrySingleValueDWORD` per (version, app) pair. The expansion runs versions in the
outer loop and apps in the inner loop. The version fills the first hole and the app the second.
Each expanded rule's own `Harden` or `IsHardened` is then called:

- `Harden` stops at the first error and returns it unchanged.
- `IsHardened` probes every target and ANDs the answers.

This project models that rule and the Office catalog data built from it.

Modules:

- `Wrappers` (wrappers.dfy): `Option`, used for Go's nil-or-error results.
- `Registry` (registry.dfy): root keys, `DWord` (Go's `uint32`), the registry as a map from
  (root key, path, value name) to DWORD, and the fields of a single-value rule. The single-value
  rule's `Harden` and `IsHardened` are not shown in the source. They are therefore function
  parameters (`HardenStep`, `HardenedProbe`) about which nothing is assumed.
- `Format` (format.dfy): `Sprintf` restricted to `%s` holes filled positionally.
- `Office` (office.dfy): the template rule, its expansion, the two loops (`Harden`,
  `IsHardened`) and the specification functions they are proved against. `Run` is the fail-fast
  sequential run with its call trace. `AllHardened` is the exhaustive AND.
- `OfficeCatalog` (catalog.dfy): `standardOfficeVersions`, `standardOfficeApps`, `OfficeOLE`,
  `OfficeMacros` and the members of `OfficeDDE`, with facts about their expansions.

The registry is external state changed by each single-value rule. Here it is a value: each step
receives the registry and returns the registry afterwards, and `Harden` threads it from one target
to the next. The template itself has value receivers and keeps no state. The methods take the rule
by value and build fresh single-value rules on every call.

Two details of the code matter here:

- The version and app dimensions are ordered lists, not sets. Duplicates are expanded twice.
- The rules `IsHardened` builds carry no short name, long name or description (office.go:226-231).
  The rules `Harden` builds carry all three (office.go:196-204).

## Model

| member | source | states |
|---|---|---|
| Office.Harden | office.go:189-215 | the nested loops leave the registry, return the error and make exactly the single-value calls of the fail-fast run `Run` over the expansion: in expansion order, each with the caller's flag, none after the first error |
| Office.IsHardened | office.go:218-239 | the nested loops return true exactly when every expanded target reports hardened, and they probe every target of the expansion in order (no early exit) |
| Office.ExpansionSize | office.go:191-192 | the expansion has exactly len(versions) × len(apps) targets for both operations, with no deduplication |
| Office.ExpansionOrder | office.go:191-193 | target i·len(apps)+j is the pair (versions[i], apps[j]), so versions are outer and apps inner; its path is the template with the version in the first hole and the app in the second |
| Office.ExpansionFromPairs | office.go:221-223 | conversely, every target at position k comes from the pair (i, j) with k = i·len(apps)+j |
| Office.TargetsPassThrough | office.go:196-204 | every target Harden builds has the template's root key, value name, hardened value and names, and two targets differ at most in their path; IsHardened's targets are the same targets with empty names |
| Office.RunCalls | office.go:191-211 | the calls made are a prefix of the targets in expansion order, each with the same harden flag; all targets are called when the result is nil |
| Office.RunFailFast | office.go:207-210 | if targets before k succeed and target k fails, that error is returned unchanged, the registry is left as target k left it (no rollback) and no later target is invoked |
| Office.RunErrorIsFirst | office.go:207-210 | a returned error is the error of the last target called; every target before it returned nil |
| Office.RunNilIff | office.go:207-214 | the run returns nil exactly when every target's Harden returned nil on the registry its predecessors left |
| Office.RunAppend | office.go:191-211 | a run over two lists whose first part succeeds continues from the registry the first part left |
| Office.EmptyExpansion | office.go:214 | with no versions or no apps, Harden invokes nothing, leaves the registry unchanged and returns nil, and IsHardened is true |
| Office.HardenCallOrder | office.go:191-207 | call i·len(apps)+j, when made, is the single-value rule for (versions[i], apps[j]) with the caller's flag; a nil result means all len(versions)×len(apps) calls were made |
| Office.IsHardenedIffEveryPair | office.go:219-238 | IsHardened is true exactly when the rule of every (version, app) pair reports hardened, so one unhardened pair makes it false |
| Office.SameTargetsEveryCall | office.go:189-196 | the n-th call of any two runs, whatever their flags and starting registries, names the same rule: the n-th target of the expansion |
| Office.GridAt | office.go:191-192 | in the pair grid, (versions[i], apps[j]) sits at position i·len(apps)+j |
| Office.GridSplit | office.go:191-192 | every grid position is i·len(apps)+j for some version index i and app index j |
| Format.FillTwoHoles | office.go:193 | a template made of literal text and two `%s` holes becomes the text with the first argument in the first hole and the second in the second |
| Format.LiteralUnchanged | office.go:193 | formatting text without `%` leaves it unchanged |
| OfficeCatalog.CatalogExpansionSizes | office.go:53-173 | OfficeOLE and OfficeMacros expand to 12 targets each; the six DDE templates expand to 6, 3, 4, 4, 4 and 4 targets |
| OfficeCatalog.SecurityTemplateFill | office.go:55 | the security template gives `SOFTWARE\Microsoft\Office\<version>\<app>\Security` |
| OfficeCatalog.OfficeOLEPaths | office.go:53-61 | OfficeOLE's target i·3+j is the security key of standard version i and standard app j |
| OfficeCatalog.OfficeMacrosPaths | office.go:68-76 | OfficeMacros's target i·3+j is the security key of standard version i and standard app j |
| OfficeCatalog.ExampleOrder | office.go:191-192 | versions 14.0, 15.0 and apps Word, Excel expand to (14.0, Word), (14.0, Excel), (15.0, Word), (15.0, Excel) |
| Office.DuplicatesKept | office.go:191-192 | equal versions and equal apps at different positions yield equal targets at each of their positions: nothing is deduplicated |
| OfficeCatalog.DuplicateVersionExample | office.go:191-192 | a version listed twice yields the same target twice |
| OfficeCatalog.CatalogIdentity | office.go:242-254 | Name, LongName and Description return the stored short name, long name and description of OfficeOLE, OfficeMacros and every DDE template, and the short names of all these templates are pairwise distinct |

## Left out

- The internals of `RegistrySingleValueDWORD.Harden` and `IsHardened` are not part of this model. They are parameters, so nothing is claimed about how the original value is captured, restored or re-captured on a second harden.
- The Windows registry API (`golang.org/x/sys/windows/registry`) is not modelled. The registry is an abstract map of DWORD values, and values of other types are not represented.
- Office.Harden: the registry is a value passed from step to step, not global state changed in place. A step cannot observe anything else that the real registry holds.
- `MultiHardenInterfaces` is not part of this model. `OfficeDDE` appears only as the list of its members, and no composite behaviour is modelled.
- `OfficeActiveX` is a plain single-value rule, not a template, and is not modelled.
- Format.Sprintf: only `%s` verbs are modelled. Go's `%%`, other verbs, the `%!s(MISSING)` marker for a hole with no argument and the `%!(EXTRA …)` marker for surplus arguments are not. An unfilled hole stays as `%s` and surplus arguments are dropped. The catalog templates have exactly two holes and no other `%`.
- The case of registry paths (`Software` and `SOFTWARE`) and backslash escaping are carried as plain text. Registry keys are case-insensitive, but that is not modelled.
- Office.IsHardened, Office.Harden: the `probed` and `calls` traces are ghost. The source has no such values. They record which targets were probed or called, in what order and, for `Harden`, with which flag.
