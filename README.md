# CliHelper command dispatch, modelled in Dafny

CliHelper turns a command line into a call of a public method (an *action*) of a controller
class. The engine has two generations, and both are modelled here.

- **The regex generation** is `Client`, `CommandContextProvider` and `ArgumentService`.
  - Controllers derive from `Controller`. Each public method declared on a controller type is registered as a command context. Property accessors are excluded.
  - The command line is joined into one string.
  - A regular expression built from the registered names picks the controller and the action from its start. Names are ordered by decreasing length and compared ignoring case.
  - Each parameter is then bound from a switch. Boolean switches look like `--name`, `--name yes` or `/name:false`. Named switches look like `--name value`, `--name "quoted value"` or `--name 'value'`.
  - A value is converted with `Parse` or `TryParse`, according to the parameter's type.
  - A parameter that no switch binds is bound to the console reader (a `TextReader` parameter), or to an object. The object comes from the service provider, or from a default constructor, and its properties are in turn bound from switches.
- **The token-array generation** is `CliClient`, `ArgumentHelper` and `Extensions`.
  - Controllers derive from `CliController`. Every public method declared on the type, property accessors included, is an action.
  - Controllers are registered in one of two exclusive modes. Either all of an assembly's controllers are registered, or a single *primary* controller is. In primary mode its reference name is inserted in front of the arguments.
  - The first two tokens name the controller and the action. The names are compared, ignoring case, with each context's *reference*:
    - for a controller, the `[Cli]` alias, else the type name with every "CliController" and then every "Controller" removed;
    - for an action, the alias, else the method name.
  - The remaining tokens are bound by position. `bool`, `short`, `int`, `long`, `float`, `double` and `decimal` require a token. `string` and the nullable forms of those seven take one if any is left, and are null otherwise. Other parameters come from the service provider, or are bound to all remaining tokens, which ends the loop.

The model works on records in place of reflection:
- controller types with their methods and reflection flags;
- parameters and properties with their declared types and aliases;
- a service provider as the set of type names it can build.

The regular expressions become explicit matchers. The model proves each match is the leftmost one, and that an alternation of names sorted by decreasing length captures a longest matching name. The mutable objects become classes whose methods are proved against specification functions:
- `Client`;
- the context registry;
- `CliClient`, whose class invariant keeps the two registration modes exclusive.

Where the code's behaviour differs from what a reader of its comments would expect, the model follows the code:
- The value class `[\w\s:\\.-{}]` contains the range `.-{`, from U+002E to U+007B. So a named switch's value contains no `-`, although the commented patterns in `CliHelper/Services/ArgumentService.cs:62` accept it.
- `ResolveControllerReference` removes "Controller" anywhere in the type name, not only as a suffix.
- `RegisterController` keeps property accessors, unlike `CommandContextProvider`.
- `AddPrimaryController` registers the controller's contexts and its service before `First()` throws on a controller without actions.

## Model

| member | source | states |
|---|---|---|
| Declarations.ContextsAmongShape | CliHelper/Services/CommandContextProvider.cs:14-28 | a registration appends exactly one context per accepted method of the type, each pairing the type and its alias with the method and its alias, and nothing else |
| Declarations.NamesOfMembership | CliHelper/Client.cs:63-72 | a type name is among the services a registration loop adds exactly when one of the registered types has that name |
| Text.SortByLengthDescCorrect | CliHelper/Services/ArgumentService.cs:22-23 | `OrderByDescending(r => r.Length)` yields the names ordered by decreasing length, as a permutation of the input |
| Text.FirstMatchAt | CliHelper/Services/ArgumentService.cs:25 | an alternation picks a candidate that occurs at the position ignoring case, and finds none exactly when no candidate occurs there |
| Text.FirstMatchAtIndex | CliHelper/Services/ArgumentService.cs:25 | the chosen candidate is the first one in list order that occurs at the position |
| Text.FirstMatchOnSortedIsLongest | CliHelper/Services/ArgumentService.cs:22-25 | on candidates sorted by decreasing length, the first match is a longest match |
| Text.SortedFirstMatch | CliHelper/Services/ArgumentService.cs:22-25 | the first match among the sorted names is one of the names, occurs at the position and is at least as long as every name that occurs there |
| Text.LongestMatchAtIsLongest | CliHelper/Services/ArgumentService.cs:25 | an optional group of alternatives captures, as written in the input, a longest name occurring at the position, and nothing when no name occurs |
| Text.Trim | CliHelper/Services/ArgumentService.cs:104 | `Trim(chars)` leaves no trimmed character at either end, keeps only characters of the input, and leaves an already trimmed string unchanged |
| Text.TrimPadded | CliHelper/Services/ArgumentService.cs:104 | trimming a text surrounded by padding gives back exactly that text |
| Text.RemoveAllWithoutOccurrence | CliHelper/CliClient.cs:32 | `Replace(word, "")` leaves a string without the word unchanged |
| Text.RemoveAllSplits | CliHelper/CliClient.cs:32 | `Replace(word, "")` removes an occurrence of the word wherever it stands, keeping what precedes it |
| Numbers.ParseInteger | CliHelper/ArgumentHelper.cs:22-41 | a value `TryParse` produces for an integer kind lies in that kind's range |
| Numbers.Checked | CliHelper/ArgumentHelper.cs:22-41 | a magnitude and sign are accepted only when the signed value lies in the kind's range (overflow fails) |
| Numbers.ParseIntegerRoundTrip | CliHelper/ArgumentHelper.cs:22-41 | parsing `n.ToString()` gives back `n` exactly when `n` is in the kind's range, and fails otherwise |
| Numbers.ParseDigits | CliHelper/ArgumentHelper.cs:32-36 | a run of decimal digits parses to its value, range-checked |
| Numbers.ParseNegativeDigits | CliHelper/ArgumentHelper.cs:32-36 | a minus sign followed by digits parses to the negated value, range-checked |
| Numbers.ParseMinusDigits | CliHelper/ArgumentHelper.cs:32-36 | any text made of a minus sign and digits parses to the negated value of the digits, range-checked |
| Numbers.ParseBool | CliHelper/ArgumentHelper.cs:17-21 | `bool.TryParse` of a null string fails |
| Numbers.ParseBoolPadded | CliHelper/ArgumentHelper.cs:17-21 | `bool.TryParse` ignores surrounding white space and NUL and accepts exactly "True" or "False" in any letter case |
| Numbers.ParseBoolRoundTrip | CliHelper/ArgumentHelper.cs:17-21 | `b.ToString()` and its lower-case form, padded with white space, parse back to `b` |
| Numbers.ParseBoolSpelling | CliHelper/ArgumentHelper.cs:17-21 | either spelling of `b`, padded, parses back to `b` |
| Numbers.ParseBoolToString | CliHelper/ArgumentHelper.cs:17-21 | `bool.TryParse(b.ToString())` gives back `b` |
| Switches.QuotedEnd | CliHelper/Services/ArgumentService.cs:95-96 | a quoted value alternative runs from an opening quote to the same closing quote with only value characters between |
| Switches.NamedValueAt | CliHelper/Services/ArgumentService.cs:96 | the ArgumentValue group of the named pattern is a non-empty, well-formed value lying in the input right after the separators |
| Switches.TailAt | CliHelper/Services/ArgumentService.cs:73-96 | after the name, the terminator ends within the input, and the named pattern always captures a well-formed value |
| Switches.MatchWith | CliHelper/Services/ArgumentService.cs:68-96 | a match tried with the prefixes in order starts at the position tried and ends within the input, and the named pattern's match carries a well-formed value |
| Switches.MatchWithSkips | CliHelper/Services/ArgumentService.cs:68-73 | a prefix not followed by the switch name is passed over for the next prefix |
| Switches.MatchWithPrefix | CliHelper/Services/ArgumentService.cs:73 | a match begins with one of the prefixes tried, followed by the switch name, ignoring case |
| Switches.MatchAt | CliHelper/Services/ArgumentService.cs:73-96 | a match at a position starts there and ends within the input; a named match carries a well-formed value |
| Switches.MatchAtPrefix | CliHelper/Services/ArgumentService.cs:73-96 | a match at a position begins with one of the pattern's prefixes followed by the name |
| Switches.Find | CliHelper/Services/ArgumentService.cs:74 | `Regex.Match` finds the leftmost position with a match, and finds none exactly when no position has one |
| Switches.ReplaceAll | CliHelper/Services/ArgumentService.cs:79 | `Regex.Replace(..., "")` never lengthens the input |
| Switches.ReplaceAllCutsFirstMatch | CliHelper/Services/ArgumentService.cs:79 | the replacement removes the first match and keeps everything before it |
| Switches.ReplaceAllWithoutMatch | CliHelper/Services/ArgumentService.cs:79 | without a match the input is unchanged |
| Switches.TrimmedValueChars | CliHelper/Services/ArgumentService.cs:104 | a captured value, once trimmed, holds only value characters: no `-`, no quote, and no space at either end |
| Switches.ValueCharsExclude | CliHelper/Services/ArgumentService.cs:95 | the value class admits neither `-` nor a quote |
| Resolution.MatchCommandPrefix | CliHelper/Services/ArgumentService.cs:25-26 | the controller group, the spaces, the action group and the trailing spaces follow each other from the start of the input, and each run of spaces is maximal |
| Resolution.MatchCommandPrefixIsLongest | CliHelper/Services/ArgumentService.cs:22-26 | the controller group holds a longest registered controller name at the start, and the action group a longest registered action name after the spaces |
| Resolution.NarrowIsSelected | CliHelper/Services/ArgumentService.cs:40-45 | copying then filtering by controller, then by action, keeps exactly the contexts answering both non-empty names, in registration order |
| Resolution.Decide | CliHelper/Services/ArgumentService.cs:28-53 | the missing-name, no-action and no-single-action errors and success each occur exactly under their conditions; success returns the single selected context |
| Resolution.Resolve | CliHelper/Services/ArgumentService.cs:20-56 | the prefix pattern always matches and the matched prefix is removed from the input. The missing-name, no-action and no-single-action errors and success each occur exactly under their conditions on the matched groups |
| Resolution.ResolveOutline | CliHelper/Services/ArgumentService.cs:20-56 | only a prefix is removed from the input, a resolved context is registered, and the missing-name errors occur only when that name is required |
| Resolution.SelectedIsUnique | CliHelper/Services/ArgumentService.cs:40-50 | a context registered once that alone answers the names is the one selected |
| ArgumentService.ExtractCommandContext | CliHelper/Services/ArgumentService.cs:20-56 | with the settings' two flags: only a prefix of the input is consumed, a found context is registered, and a missing-name error occurs only for a required name |
| ArgumentService.DefaultInstance | CliHelper/Services/ArgumentService.cs:178 | `Activator.CreateInstance` gives null exactly for a nullable type, fails for `string`, readers and non-constructible types, and otherwise gives a value of the type |
| ArgumentService.MasterConvertSimpleType | CliHelper/Services/ArgumentService.cs:162-227 | the string is passed through. Booleans follow the true and false words, else give the type's default (false, or null for `bool?`). Integer kinds follow `Parse`: a plain kind throws on bad text, a nullable one gives null. A non-null result is of the type |
| ArgumentService.ConvertIntegerRoundTrip | CliHelper/Services/ArgumentService.cs:181-199 | every in-range integer written by `ToString()` converts back to itself for the plain and nullable kinds |
| ArgumentService.ExtractSpecialInstance | CliHelper/Services/ArgumentService.cs:113-120 | the console reader for `TextReader`, null for every other type |
| ArgumentService.SwitchPrefix | CliHelper/Services/ArgumentService.cs:68-96 | every switch recognised starts with one of the configured prefixes followed by the name |
| ArgumentService.ExtractSimpleTypeInstance | CliHelper/Services/ArgumentService.cs:58-111 | no switch gives null with the input unchanged. A bare boolean switch gives true, and a boolean literal converts through `MasterConvertSimpleType`. A named value is trimmed and then converted. All matches are removed from the input |
| ArgumentService.NamedValueIsClean | CliHelper/Services/ArgumentService.cs:95-105 | a named switch's value, as converted, contains no `-` or quote and has no space at either end |
| ArgumentService.BooleanLiteralIsLongest | CliHelper/Services/ArgumentService.cs:72-73 | the boolean literal captured is one of the true or false words and a longest one present |
| ArgumentService.SwitchValue | CliHelper/Services/ArgumentService.cs:129-131 | the value a property gets from the switches is null or of the property's type, and the input only shrinks |
| ArgumentService.PropertyStep | CliHelper/Services/ArgumentService.cs:127-134 | one property pass never lengthens the input; `SetValue` on a property without a setter throws |
| ArgumentService.SetProperties | CliHelper/Services/ArgumentService.cs:125-135 | the property loop never lengthens the input |
| ArgumentService.PropertyStepAssigns | CliHelper/Services/ArgumentService.cs:129-134 | one pass sets the property to its own switch value exactly when that value is not null and the property has a setter, throws `SetValue`'s exception when it has none, leaves the object unchanged when the value is null, and ends with the exception when extraction throws; the input is what the extraction left |
| ArgumentService.SetPropertiesAssignsOwnValue | CliHelper/Services/ArgumentService.cs:125-135 | when a property's own switch value (read from the input the earlier properties left) is not null, the loop throws if the property has no setter; if the loop succeeds, the property has a setter and holds exactly that value, unless a later property of the same name overrides it |
| ArgumentService.SetPropertiesKeepsUnswitched | CliHelper/Services/ArgumentService.cs:125-135 | a property name whose switch values are all null keeps what the instance had: absent stays absent, present keeps its value |
| ArgumentService.SetPropertiesAssignsNonNull | CliHelper/Services/ArgumentService.cs:122-138 | the loop keeps the object's type and origin, never removes a property, and sets only properties of the type, to non-null values |
| ArgumentService.StronglyTypedInstanceFits | CliHelper/Services/ArgumentService.cs:122-138 | the strongly typed instance is null or of the requested type, and the input only shrinks; it comes from the provider exactly when the provider knows the type, and otherwise is a default instance, whose creation failure is the result with the input untouched |
| ArgumentService.ExtractStronglyTypedInstance | CliHelper/Services/ArgumentService.cs:122-138 | the method's property loop computes the specified instance and remaining input |
| ArgumentService.SetPropertiesFailureSticks | CliHelper/Services/ArgumentService.cs:125-135 | once the property loop has thrown, later properties change nothing |
| ArgumentService.ParameterValue | CliHelper/Services/ArgumentService.cs:147-157 | the value a parameter gets is null or of the parameter's type, and the input only shrinks |
| ArgumentService.ParameterStep | CliHelper/Services/ArgumentService.cs:145-158 | one pass appends exactly one slot, null or of the parameter's type, after the earlier ones |
| ArgumentService.MethodParametersShape | CliHelper/Services/ArgumentService.cs:140-161 | a successful binding has exactly one slot per parameter, each null or of the parameter's type, and the input only shrinks |
| ArgumentService.ExtractParameterValue | CliHelper/Services/ArgumentService.cs:147-157 | the method computes the specified parameter value and remaining input |
| ArgumentService.ExtractMethodParameters | CliHelper/Services/ArgumentService.cs:140-161 | the array-filling loop computes the specified slots and remaining input |
| ArgumentService.MethodParametersFailureSticks | CliHelper/Services/ArgumentService.cs:145-158 | once the parameter loop has thrown, later parameters change nothing |
| CommandContextProvider.ContextProvider.constructor | CliHelper/Services/CommandContextProvider.cs:8 | the registry starts empty |
| CommandContextProvider.ContextProvider.RegisterCommandContexts | CliHelper/Services/CommandContextProvider.cs:12-29 | the registry grows by exactly the contexts of the type's public, own, non-accessor methods, in order |
| CommandContextProvider.ContextProvider.ExtractCommandContext | CliHelper/Services/CommandContextProvider.cs:31-69 | resolution on the registry with the configuration's flags, leaving the registry unchanged |
| Extensions.InIsMembership | CliHelper/Extensions.cs:3-12 | `In` is true exactly when some item equals the instance |
| Extensions.InDependsOnlyOnElements | CliHelper/Extensions.cs:3-12 | order and repetition of the items do not change `In` |
| Extensions.NotManyMeansAtMostOne | CliHelper/Extensions.cs:14-17 | `Many` is false exactly for empty and single-element collections |
| Linq.Select | CliHelper/Services/ArgumentService.cs:22 | `Select` maps each element in place |
| Linq.Where | CliHelper/CliClient.cs:48-54 | `Where` keeps only elements satisfying the predicate, drawn from the input |
| Linq.WhereKeeps | CliHelper/CliClient.cs:81-83 | `Where` keeps every element satisfying the predicate |
| Linq.WhereEmpty | CliHelper/CliClient.cs:56 | `Where` is empty exactly when no element satisfies the predicate |
| Linq.WhereCongruent | CliHelper/CliClient.cs:59-64 | predicates agreeing on the elements filter alike |
| Linq.WhereWhere | CliHelper/Services/ArgumentService.cs:42-45 | two successive filters are one filter by the conjunction |
| Linq.WhereAll | CliHelper/Services/ArgumentService.cs:40 | a filter every element passes is a copy |
| ArgumentHelper.ConvertValue | CliHelper/ArgumentHelper.cs:12-62 | the string is passed through; a success is of the target type; null only for the nullable list; failure is a `FormatException` exactly outside that list; booleans and integers follow `TryParse` |
| ArgumentHelper.NullableTypesMembership | CliHelper/ArgumentHelper.cs:6-7 | the nullable list holds exactly `string` and the nullable forms of the kinds with a conversion branch |
| ArgumentHelper.NullableFallback | CliHelper/ArgumentHelper.cs:58-61 | the null fallback is chosen exactly for those types |
| ArgumentHelper.ConvertBoolRoundTrip | CliHelper/ArgumentHelper.cs:17-21 | `b.ToString()` converts back to `b` for `bool` and `bool?` |
| ArgumentHelper.ConvertIntegerRoundTrip | CliHelper/ArgumentHelper.cs:22-41 | `n.ToString()` converts back for in-range values; out of range the nullable kinds give null and the plain kinds throw |
| ArgumentHelper.UnhandledTypesAlwaysFail | CliHelper/ArgumentHelper.cs:58-61 | types without a branch and outside the nullable list always throw |
| Client.ContextsOfAllShape | CliHelper/Client.cs:63-72 | registering several types registers exactly the command methods of those types, each paired with its own type |
| Client.ExecuteShape | CliHelper/Client.cs:125-152 | a command runs only on the single context its prefix selects, whose controller the provider can build, with one slot per parameter, each null or of the parameter's type |
| Client.ExecuteResolved | CliHelper/Client.cs:126-137 | a successful execution uses the resolved context and binds its parameters from what resolution left of the input |
| Client.ExecuteReportsResolutionFailure | CliHelper/Client.cs:128 | a resolution failure is the execution's failure |
| Client.ClientSwitchStartsWithPrefix | CliHelper/Client.cs:216-267 | every switch the Client recognises starts with `--` or `/` followed by the name |
| Client.ClientBooleanWords | CliHelper/Client.cs:270-294 | a boolean converts to true exactly for the true words, to false for the false words (or any other word for plain `bool`), and to null for any other word for `bool?` |
| Client.Client.constructor | CliHelper/Client.cs:23-33 | neither name is required, no services, no provider, an empty registry |
| Client.Client.AddControllers | CliHelper/Client.cs:63-72 | each type becomes a service and the registry grows by the contexts of every type, in order |
| Client.Client.AddController | CliHelper/Client.cs:65-69 | one type becomes a service and its contexts are appended |
| Client.Client.AddControllersOf | CliHelper/Client.cs:48-57 | only the assembly's subclasses of `Controller` are registered |
| Client.Client.Configure | CliHelper/Client.cs:75-79 | only the configuration changes |
| Client.Client.AddServices | CliHelper/Client.cs:81-85 | only the service collection grows |
| Client.Client.Build | CliHelper/Client.cs:87-91 | the default controller and the context list are registered and the provider is built from the collection |
| Client.Client.Run | CliHelper/Client.cs:87-99 | after building, no arguments means the shell (no result), and otherwise the execution of the space-joined arguments |
| Client.Client.HandleCommandExecution | CliHelper/Client.cs:125-152 | resolves, requires the controller service, binds the parameters: the specified execution |
| Client.Client.ExtractStronglyTypedInstance | CliHelper/Client.cs:169-185 | the Client's vocabulary applied to the strongly typed binding |
| Client.Client.ExtractMethodParameters | CliHelper/Client.cs:190-211 | the Client's vocabulary applied to the parameter binding |
| CliClient.ControllerReferenceRemovesWord | CliHelper/CliClient.cs:28-35 | without an alias, a type named `a` + "Controller" + `b` is referred to as `a` + `b` |
| CliClient.ControllerReferenceRemovesCliController | CliHelper/CliClient.cs:28-35 | without an alias, a type named `stem` + "CliController" is referred to as `stem` |
| CliClient.ReferencesPreferAliases | CliHelper/CliClient.cs:28-44 | an alias, when present, is the reference; an action without one is referred to by its method name |
| CliClient.GetCliExecutionContextOutcome | CliHelper/CliClient.cs:46-75 | each of the three errors occurs exactly under its condition; success is exactly one answering context, which is returned |
| CliClient.PositionalSettled | CliHelper/CliClient.cs:215-264 | once binding has thrown or broken off, later parameters change nothing |
| CliClient.OptionalTypesAreNullable | CliHelper/CliClient.cs:234-247 | every optional type is in the nullable list, so a missing token gives null |
| CliClient.BindStepSlot | CliHelper/CliClient.cs:215-264 | one pass appends one value fitting the parameter; it breaks only after appending the bound value; tokens are not over-read |
| CliClient.BindStepRequired | CliHelper/CliClient.cs:218-231 | a required parameter succeeds only by converting the next token |
| CliClient.BindStepShape | CliHelper/CliClient.cs:215-264 | one pass keeps the shape of a successful binding |
| CliClient.PositionalShape | CliHelper/CliClient.cs:210-264 | a successful binding has at most one value per parameter, each fitting, and all of them unless the loop broke after binding the remaining tokens |
| CliClient.RequiredBindingIsPositional | CliHelper/CliClient.cs:217-231 | with only required parameters, binding succeeds only with enough tokens, and parameter `k` holds the conversion of token `k` |
| CliClient.BindParameters | CliHelper/CliClient.cs:210-264 | the enumerator loop computes the specified binding |
| CliClient.DispatchShape | CliHelper/CliClient.cs:188-267 | a dispatch succeeds only on the single context answering the parsed arguments, with its controller in the provider and the values bound by position |
| CliClient.CliClient.Create | CliHelper/CliClient.cs:22-26 | nothing registered, no provider, no primary controller |
| CliClient.CliClient.RegisterController | CliHelper/CliClient.cs:91-117 | a non-`CliController` type is rejected with no change; otherwise its public own methods are appended in order and it becomes a service |
| CliClient.CliClient.RegisterAll | CliHelper/CliClient.cs:85-88 | each type is registered in turn |
| CliClient.CliClient.RegisterAssembly | CliHelper/CliClient.cs:77-89 | exactly the assembly's subclasses of `CliController` are registered, in order |
| CliClient.CliClient.AddControllers | CliHelper/CliClient.cs:122-135 | refused with no change once a primary controller is set; otherwise the assembly is registered; the modes stay exclusive |
| CliClient.CliClient.AddPrimaryController | CliHelper/CliClient.cs:141-163 | refused with no change once anything is registered. Otherwise the controller is registered and the override becomes its first context's reference. A controller without actions throws after registering |
| CliClient.CliClient.AddServices | CliHelper/CliClient.cs:168-174 | the services grow and the provider is rebuilt from them |
| CliClient.CliClient.Run | CliHelper/CliClient.cs:188-267 | builds the provider if there is none, then dispatches with it, the registrations unchanged |

## Left out

- Reflection, attributes and `Activator`: types, methods, parameters and properties are records. An object instance is a value with its type, origin and assigned properties.
- Dependency injection: a service provider is the set of type names it can build. Lifetimes (transient, singleton), instance identity and aliasing between resolved objects are not modelled. The singleton context list of `Client.Run` is only a name in that set. The `AddServices` callback (`Client.Client.AddServices`, `CliClient.CliClient.AddServices`) is modelled as adding service names only; a real callback can also remove or replace registrations, a controller's included.
- `ref string args`: the functions that rewrite the argument string return the rewritten string beside their result. The methods that call them thread it through, so no aliasing of the string is modelled.
- Console and the interactive shell: `HandleCommandShell`, prompts and banners are left out. `Console.In` is a distinguished value.
- Invocation: `MethodInfo.Invoke`, setting `Controller.SelectedCommandContext`, waiting on `Task` results and the cast to `T` are left out. Both `Run` methods stop at the resolved context and the bound values.
- ArgumentService.StronglyTypedInstance, Declarations.PropertiesOf: only complex (user-declared) types have properties. `GetProperties()` also lists the read-only properties of framework types, such as `HasValue` and `Value` of `Nullable<T>` and those of `DateTime` and `TimeSpan`. For those, the source removes a matching switch from the input and throws from `SetValue` when its value is not null. For example, an `int?` parameter with no `--x` switch and an input containing `--HasValue` makes the source throw, while the model yields null and leaves the input unchanged.
- Library parsing: `float`, `double`, `decimal`, `TimeSpan` and `DateTime` parsing, and their cultures, are a parameter that accepts or rejects a text.
- Case folding: `Text.ToLower`, `Text.EqualsIgnoreCase` and `Text.StartsWithIgnoreCase` fold ASCII letters only. They stand for the `OrdinalIgnoreCase` comparisons of the name filters (`CliHelper/Services/ArgumentService.cs:43-45`, `CliHelper/CliClient.cs:50-63`), for the culture-sensitive `ToLower()` in `MasterConvertSimpleType` (`CliHelper/Services/ArgumentService.cs:171`, `CliHelper/Client.cs:286`) and for `RegexOptions.IgnoreCase`. Non-ASCII letters and culture-specific rules are not modelled.
- Regular-expression details:
  - `\w` is ASCII only;
  - controller and action names, switch names (parameter and property names and their `[Cli]` aliases) and the settings' `ConsiderTrueStrings` and `ConsiderFalseStrings` are matched as literal text. The source puts them into its patterns without `Regex.Escape`, so any regex metacharacters they contain would be interpreted there and are not here.
- CliClient.CliClient.Run: `ArgumentHelper.ParseCliArguments`, `ArgumentHelper.InsertController` and `ArgumentHelper.Bind` are not part of this model. Parsing and insertion are parameters of `Run`, and the value `Bind` produces is an opaque value carrying the type and the remaining tokens.
- `AddControllers()` without an assembly defaults to the calling assembly. The model always takes the assembly's types explicitly.
- CliClient.CliClient.AddPrimaryController: the error carries no controller count (the `Distinct().Count()` of the message), and the final `TryAddTransient` is subsumed by the registration.
- CommandContextProvider.ContextProvider.ExtractCommandContext: a null configuration (a `NullReferenceException` in the source) is not modelled; a configuration is always given.
- Text.Trim, Switches.ReplaceAll: the contracts give bounds and shapes; the exact text is fixed by the function bodies and the lemmas beside them.
