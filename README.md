# HAL binding layer: a verified model

HAL is a C++ layer over a JavaScript engine's C API. It wraps engine
handles in RAII facades: JSValue, JSObject, JSString, JSClass,
JSPropertyNameArray, JSContextGroup and JSContext. It exports C++ classes to
JavaScript through JSExport<T>, JSExportClass<T> and
JSExportClassDefinition<T>.

This project models the bookkeeping that HAL performs around the engine.

The engine is an abstract store (`Engine.Store`):
- Handles are naturals, and 0 is the null pointer.
- An object carries a property map, an optional private slot holding a
  native instance, the class it was made from, and whether it can be
  called as a function or as a constructor.
- The engine's own reference counts for strings, classes, context groups
  and property-name arrays are ghost counters in a `Common.Pool`.
- The engine's conversions (ToBoolean, ToNumber, ToString, and making a
  number from an unsigned integer) are parameters (`Engine.Coercions`).

What the model covers:

- **Retain table and facade lifetimes.** The process-wide retain table
  behind JSValue::Protect/Unprotect is modelled, together with a ghost log
  of the engine calls it causes. So is every facade's
  constructor/destructor/swap/assignment.
  - A history theorem (`Lifetime.ReplayCount`) states what the counts are
    after any sequence of facade events: one count per live facade, plus
    whatever surplus the assignment operators leave.
- **Private-data registry.** The registry map with its no-overwrite and
  null-skip rules. GetPrivate and the typed GetPrivate<T> down-cast.
- **Export registry and table builders.**
  - JSExportClass<T>'s name→callback maps and traps.
  - InitializePropertyCallbacks and
    JSExportClassDefinition::InitializeNamedPropertyCallbacks, which turn
    those maps into null-terminated static value/function tables.
  - The run-once JSExport<T>::Class().
  - unordered_map iteration order is unspecified, so the loops pick keys
    nondeterministically. A table is specified up to order by
    `StaticTables.IsTable`: the entries, in some order that lists every
    key once, followed by the terminator.
- **JSExportObject, JSError and the native stack, JSContext, JSContextGroup
  and JSArray.**
- **Small helpers.** to_int32_t on the 64-bit pattern of a double,
  ToJSPropertyAttributes, to_vector and ThrowRuntimeError.

Other inputs become parameters:
- The value the engine returns for a call the model cannot see, such as a
  new context's handle or the global object.
- The registrations a type's JSExportInitialize makes.

C++ statics (the retain map, the private-data map, the native stack, the
global context handle, js_class__) are explicit objects passed to the
methods.

## Model

| member | source | states |
|---|---|---|
| Retain.Protected | src/JSValue.cpp:18-27 | Protect adds exactly one to the handle's count (entering it with 1 if untracked); every other handle's count and presence is unchanged; no zero count appears |
| Retain.Unprotected | src/JSValue.cpp:29-41 | Unprotect of an untracked handle changes nothing; otherwise the count drops by one and the entry is erased exactly when it was 1; others untouched; no zero count appears |
| Retain.ProtectThenUnprotect | src/JSValue.cpp:18-41 | an Unprotect right after a Protect of the same handle gives back the table exactly as it was |
| Retain.RetainTable.constructor | src/JSValue.cpp:16 | the retain map starts empty with no engine calls made |
| Retain.RetainTable.Protect | src/JSValue.cpp:18-27 | new table is Protected(old, h); one engine protect call exactly when h was untracked, none otherwise; the invariant (no zero counts, engine-protected exactly while tracked) is kept |
| Retain.RetainTable.Unprotect | src/JSValue.cpp:29-41 | new table is Unprotected(old, h); one engine unprotect call exactly when the count was 1, none otherwise; the invariant is kept |
| Lifetime.EventCount | src/JSValue.cpp:194-216 | one facade event changes each handle's count by its change in live facades plus that event's assignment surplus |
| Lifetime.ReplayCount | src/JSValue.cpp:194-244 | after any valid history of constructions, copies, destructions and assignments, each handle's count is the number of live facades holding it plus the surplus of the assignments so far |
| Lifetime.BalancedHistoryIsExact | src/JSPropertyNameArray.cpp:48-51 | with copy-and-swap assignment the count is exactly the number of live facades, and a handle is tracked iff some live facade holds it |
| Lifetime.EngineBalance | src/JSString.cpp:45-63 | the same balance for engine-counted handles: net retains minus releases equal live facades plus surplus |
| Lifetime.BalancedEngineCounts | src/JSContextGroup.cpp:75-80 | with copy-and-swap assignment the engine's net retains are exactly the live facades |
| Lifetime.ProtectAfterSwapLeaksIncoming | src/JSValue.cpp:210-214 | in a valid history that ends with no live facade, JSValue/JSString assignment leaves the incoming handle with count 1 in the retain table (protected for ever) and with one net engine retain (the JSString case) |
| Lifetime.ProtectBeforeSwapLeaksOutgoing | src/JSObject.cpp:254-258 | in a valid history that ends with no live facade, JSObject assignment leaves the outgoing handle with count 1 |
| Lifetime.RetainWithoutSwapLeaksOutgoing | src/JSClass.cpp:36-43 | in a valid history that ends with no live facade, JSClass assignment leaves the outgoing class with one net engine retain |
| Values.JSValue.constructor | src/JSValue.cpp:240-244 | records context and handle and protects the handle once |
| Values.JSValue.Copy | src/JSValue.cpp:198-202 | same context and handle as the source, one more count |
| Values.JSValue.Move | src/JSValue.cpp:204-208 | same as a copy: the source keeps its count, the new facade adds one |
| Values.JSValue.Destroy | src/JSValue.cpp:194-196 | one Unprotect of the held handle |
| Values.JSValue.Swap | src/JSValue.cpp:216-223 | exchanges handles and contexts |
| Values.JSValue.Assign | src/JSValue.cpp:210-214 | takes the right-hand side's handle and context; the counts move by +2 incoming and -1 outgoing |
| Values.JSValue.AssignBalanced | src/JSValue.cpp:210-214 | corrected assignment: same result, counts move by +1 incoming, -1 outgoing |
| Values.ToVector | src/detail/JSUtil.cpp:68-75 | same length and order, element i is value i's handle |
| Strings.JSString.constructor | src/JSString.cpp:16-21 | a fresh engine string holding the characters of the text before its first NUL (the empty text for the default constructor) with one reference |
| Strings.JSString.Wrap | src/JSString.cpp:74-77 | wraps an existing string handle and retains it once |
| Strings.JSString.Copy | src/JSString.cpp:49-57 | copy and move share the handle and retain it once |
| Strings.JSString.Destroy | src/JSString.cpp:45-47 | releases once |
| Strings.JSString.Swap | src/JSString.cpp:65-71 | exchanges only the handles |
| Strings.JSString.Assign | src/JSString.cpp:59-63 | takes the incoming handle; engine counts move +2 incoming, -1 outgoing |
| Strings.JSString.AssignBalanced | src/JSString.cpp:59-63 | corrected assignment: +1 incoming, -1 outgoing |
| Strings.JSString.Length | src/JSString.cpp:23-25 | the length in UTF-16 code units: at least the number of characters and at most twice it, and equal to it iff every character lies in the Basic Multilingual Plane |
| Strings.JSString.Size | src/JSString.cpp:27-29 | equals Length |
| Strings.JSString.Empty | src/JSString.cpp:31-33 | true iff the engine string is empty; then its std::string conversion is empty too |
| Strings.JSString.Text | src/JSString.cpp:35-43 | a NUL-free prefix of the engine string that ends exactly at its first NUL when it has one |
| Strings.Utf16Length | src/JSString.cpp:23-25 | between the number of characters and twice it, and equal to it iff no character lies beyond U+FFFF |
| Strings.EngineStringExamples | src/JSString.cpp:19-25 | "a\0b" keeps only "a", and U+1F600 counts as two code units |
| Common.UntilNul | src/JSString.cpp:19-21 | a NUL-free prefix of the string that stops exactly at its first NUL when it has one |
| Common.UntilNulKeepsText | src/JSString.cpp:19-21 | a string without NUL passes through a C string whole |

| Objects.PrivateDataRegistry.constructor | src/JSObject.cpp:20 | the private-data map starts empty |
| Objects.PrivateDataRegistry.RegisterPrivateData | src/JSObject.cpp:189-209 | null data leaves the map unchanged; an existing entry is never overwritten; otherwise the entry is added |
| Objects.PrivateDataRegistry.UnRegisterPrivateData | src/JSObject.cpp:211-218 | removes the handle's entry if present, no-op otherwise, others untouched |
| Objects.GetPrivate | src/JSObject.cpp:220-232 | the engine private slot if non-null, else the registry entry, else null (non-null iff either exists) |
| Objects.CastPrivate | include/HAL/JSObject.hpp:396-402 | non-null iff there is private data and its instance is a T; then it is that data |
| Objects.RegisterThenGetPrivate | src/JSObject.cpp:202-208 | after registering data for an unmapped object with an empty slot, GetPrivate returns exactly that data; a mapped one keeps its old data |
| Objects.UnRegisterThenGetPrivate | src/JSObject.cpp:211-218 | after unregistering, GetPrivate falls back to the engine slot |
| Objects.JSObject.constructor | src/JSObject.cpp:276-280 | wraps context and handle; protects the handle once |
| Objects.JSObject.FromClass | src/JSObject.cpp:269-273 | a new object of the class (empty properties, no private data, callable as the class says, so IsFunction and IsConstructor follow the class's callbacks), protected once |
| Objects.JSObject.Copy | src/JSObject.cpp:242-252 | copy and move share context and handle and protect once |
| Objects.JSObject.Destroy | src/JSObject.cpp:238-240 | one Unprotect |
| Objects.JSObject.Swap | src/JSObject.cpp:260-267 | exchanges handle and context |
| Objects.JSObject.Assign | src/JSObject.cpp:254-258 | takes the incoming handle and context; counts move +1 incoming, +1 -1 outgoing (the outgoing handle is never released) |
| Objects.JSObject.AssignBalanced | src/JSObject.cpp:254-258 | corrected assignment: +1 incoming, -1 outgoing |
| Objects.JSObject.ConstructorGuard | src/JSObject.cpp:163-165 | a runtime_error with the source's message exactly when the object is not a constructor |
| Objects.JSObject.FunctionGuard | src/JSObject.cpp:295-297 | a runtime_error with the source's message exactly when the object is not a function |
| Objects.JSObject.GetPrivateAs | include/HAL/JSObject.hpp:396-402 | null with no count change when there is no private data; otherwise the instance is CastPrivate (null for a type mismatch) and an owning copy holds one more count on the handle |
| Objects.JSObject.GetProperties | src/JSObject.cpp:100-108 | the keys are the listed names cut at their first NUL; for a key several names give, the first name's property wins (emplace); each value is a fresh JSValue facade on that property; the retain table sees one Protect per new key, in order, and none for a repeated key |
| Objects.Emplace | src/JSObject.cpp:104-105 | a new key gains a fresh value facade and one Protect; a repeated key leaves the map and the retain table as they were |
| Objects.EmplacedKeys | src/JSObject.cpp:100-108 | the keys of the result are exactly the listed names cut at their first NUL |
| Objects.EmplacedFirst | src/JSObject.cpp:103-105 | the first name that gives a key decides that key's value |
| Objects.KeptPerKey | src/JSObject.cpp:100-108 | the number of Protects equals the number of distinct keys |
| Objects.JSObject.IsFunction | src/JSObject.cpp:110-112 | only an object can be a function; for an object made from a class (FromClass) it holds iff the class has a callAsFunction callback |
| Objects.JSObject.IsConstructor | src/JSObject.cpp:151-153 | only an object can be a constructor; for an object made from a class (FromClass) it holds iff the class has a callAsConstructor callback |

| Objects.Swap | include/HAL/JSObject.hpp:390-393 | the free swap exchanges handles and contexts of the two objects |
| Classes.JSClass.constructor | src/JSClass.cpp:13-16 | a new engine class made from the empty definition, with one reference; empty tables |
| Classes.JSClass.Copy | src/JSClass.cpp:21-34 | copy and move share the class handle (retained once), copy the definition, and keep the table pointers aliasing the source's vectors |
| Classes.JSClass.Destroy | src/JSClass.cpp:17-20 | releases the class once |
| Classes.JSClass.CopyDefinition | src/JSClass.cpp:45-65 | all seventeen definition fields equal the source's, pointers included |
| Classes.JSClass.Assign | src/JSClass.cpp:36-43 | takes the incoming handle and definition; engine counts move +2 -1 on incoming and never release the outgoing class |
| Classes.JSClass.AssignBalanced | src/JSClass.cpp:36-43 | corrected assignment: +1 incoming, -1 outgoing |
| Classes.JSClass.SetParent | include/HAL/JSClass.hpp:42-44 | only parentClass changes |
| Classes.JSClass.SetClassVersion | include/HAL/JSClass.hpp:46-48 | only version changes |
| PropertyNames.JSPropertyNameArray.FromObject | src/JSPropertyNameArray.cpp:61-63 | a fresh name array holding the object's names, one reference; GetCount is the number of names |
| PropertyNames.JSPropertyNameArray.GetCount | src/JSPropertyNameArray.cpp:17-19 | the number of names the engine's array holds |

| PropertyNames.JSPropertyNameArray.Copy | src/JSPropertyNameArray.cpp:38-46 | copy and move share the handle and retain it once |
| PropertyNames.JSPropertyNameArray.Destroy | src/JSPropertyNameArray.cpp:34-36 | releases once |
| PropertyNames.JSPropertyNameArray.Swap | src/JSPropertyNameArray.cpp:53-59 | exchanges only the handles |
| PropertyNames.JSPropertyNameArray.Assign | src/JSPropertyNameArray.cpp:48-51 | copy-and-swap: +1 incoming, -1 outgoing |
| PropertyNames.JSPropertyNameArray.GetNameAtIndex | src/JSPropertyNameArray.cpp:21-23 | a JSString for the name at that index, retained once, nothing else changes |
| PropertyNames.JSPropertyNameArray.Names | src/JSPropertyNameArray.cpp:25-32 | GetCount names in index order, each retained once; the array itself is unchanged |
| Arrays.GetLength | src/JSArray.cpp:22-31 | 0 without a "length" property or when it is not a number; always below 2^32 |
| Arrays.GetCount | src/JSArray.cpp:33-35 | equals GetLength |
| Arrays.StoredArguments | src/JSArray.cpp:22-31 | on an array built from n arguments, GetLength is n and the elements read back in order |
| Arrays.ToValues | src/JSArray.cpp:37-45 | one fresh JSValue per element below GetLength, in order, each protecting its handle once; the store is only read |
| Arrays.ToBooleans | src/JSArray.cpp:47-55 | GetLength items, item i the ToBoolean of index i |
| Arrays.ToStrings | src/JSArray.cpp:57-65 | GetLength items, item i the ToString of index i cut at its first NUL |
| Arrays.ToNumbers | src/JSArray.cpp:67-75 | GetLength items, item i the ToNumber of index i |
| Arrays.ToInt32s | src/JSArray.cpp:77-85 | GetLength items, item i the to_int32_t of index i |
| Arrays.ToUint32s | src/JSArray.cpp:87-95 | GetLength items, item i the uint32 reading of index i |
| Arrays.GetPrivateItems | include/HAL/JSArray.hpp:117-130 | as many items as "length" read as uint32; null at non-objects, CastPrivate at objects |
| Arrays.PrivateItemsOfStoredArguments | include/HAL/JSArray.hpp:118-119 | for an array built from n arguments, GetPrivateItems' size is n and agrees with GetLength |
| Contexts.WrapScript | src/JSContext.cpp:189-195 | empty stays empty; otherwise exactly the prefix, the content and the suffix |
| Contexts.UnwrapWrap | src/JSContext.cpp:189-195 | the content can be read back from the wrapped script |
| Contexts.WrapInjective | src/JSContext.cpp:189-195 | different contents give different scripts |
| Contexts.WideOrEmpty | src/JSContext.cpp:171-178 | the converted string is empty iff the source URL is empty, and keeps its characters |
| Contexts.GlobalContext.constructor | src/JSContext.cpp:22 | the global context handle starts null |
| Contexts.JSContext.constructor | src/JSContext.cpp:245-250 | the first context made while the global handle is null sets it; later ones never overwrite it |
| Contexts.JSContext.InGroup | src/JSContextGroup.cpp:24-32 | the context CreateContext returns, known by its handle |
| Contexts.JSContext.Copy | src/JSContext.cpp:231-237 | same handle, no retain |
| Contexts.JSContext.Assign | src/JSContext.cpp:239-242 | takes the right-hand side's handle, no count changes |
| Contexts.JSContext.GetGlobalObject | src/JSContext.cpp:24-27 | requires the global handle to be set; wraps the global object, protecting it once |
| Contexts.JSContext.CreateObject | src/JSContext.cpp:123-129 | a fresh plain object holding exactly the given properties, protected once; the rest of the store unchanged |
| Contexts.JSContext.CreateObjectOfClass | src/JSContext.cpp:131-137 | a fresh object of the class holding exactly the given properties, protected once |
| Contexts.JSContext.CreateArray | src/JSContext.cpp:145-156 | a fresh array with argument i at index i and length n (for n below 2^32), protected once; other values unchanged |
| Contexts.SetElements | src/JSContext.cpp:150-154 | after the loop index i holds refs[i] for every i, "length" and all other values unchanged |
| Contexts.SetProperties | src/JSContext.cpp:124-128 | the object's properties become the old ones overridden by the map; nothing else changes |
| ContextGroups.JSContextGroup.constructor | src/JSContextGroup.cpp:18-22 | a fresh group with one reference |
| ContextGroups.JSContextGroup.Wrap | src/JSContextGroup.cpp:34-43 | requires a non-null group; retains it once and sets managed |
| ContextGroups.JSContextGroup.Copy | src/JSContextGroup.cpp:55-73 | copy and move retain once and set managed |
| ContextGroups.JSContextGroup.Destroy | src/JSContextGroup.cpp:45-53 | releases exactly once if managed, not at all otherwise |
| ContextGroups.JSContextGroup.Swap | src/JSContextGroup.cpp:82-90 | exchanges only the group handles; each side keeps its managed flag |
| ContextGroups.JSContextGroup.Assign | src/JSContextGroup.cpp:75-80 | copy-and-swap: takes the incoming handle, keeps its flag; +1 incoming, -1 outgoing |
| ContextGroups.JSContextGroup.CreateContext | src/JSContextGroup.cpp:24-32 | the native stack is empty afterwards, and the context has the engine's handle |
| Errors.NativeStack.constructor | src/JSError.cpp:15 | the native stack starts empty |
| Errors.NativeStack.Clear | src/JSError.cpp:88-90 | the stack is empty afterwards |
| Errors.NativeStack.GetNativeStack | src/JSError.cpp:80-86 | the trace Trace(entries), the stack unchanged |
| Errors.Line | src/JSError.cpp:83 | every trace line is newline-terminated and as long as its index's digits, the frame and three separator characters |
| Errors.TraceEmpty | src/JSError.cpp:80-86 | the trace is empty iff the stack is |
| Errors.MostRecentFirst | src/JSError.cpp:82-84 | the most recently pushed frame is line 1, and the older frames follow numbered from 2 |
| Errors.TraceLineCount | src/JSError.cpp:82-84 | with newline-free frames, the trace has one line per entry |
| Errors.LineNumber | src/JSError.cpp:59-64 | always below 2^32, and 0 when the object has no "lineNumber" |
| Errors.StringProperty | src/JSError.cpp:38-57 | "" when the object lacks the property; a string property reads back cut at its first NUL; the result never contains NUL |
| Errors.ReadBack | src/JSError.cpp:29-78 | an error object built from a record reads back every field of that record through the accessors, each string cut at its first NUL |
| Errors.FromRuntimeError | src/JSError.cpp:29-36 | a fresh error object, protected once, carrying message, name, fileName, stack, nativeStack (each cut at its first NUL) and lineNumber from the record; other values unchanged |
| Errors.SetFields | src/JSError.cpp:29-36 | sets the six fields on the error object and changes no other value |
| JSUtil.ToJSPropertyAttributes | src/detail/JSUtil.cpp:127-150 | the result is Mask(attributes), whatever the order of iteration |
| JSUtil.MaskUnion | src/detail/JSUtil.cpp:129-147 | the flags of a union are the union of the flags |
| JSUtil.MaskOfNone | src/detail/JSUtil.cpp:127-150 | the empty set and {None} give kJSPropertyAttributeNone |
| JSUtil.MaskMembership | src/detail/JSUtil.cpp:127-150 | ReadOnly/DontEnum/DontDelete are members iff their flag bit is set |
| JSUtil.ThrowRuntimeError | src/detail/JSUtil.cpp:18-24 | the exception carries the message |
| JSUtil.ComponentIsDiscarded | src/detail/JSUtil.cpp:18-24 | the component name does not affect the exception |
| NumberConversion.ToInt32 | src/detail/JSUtil.cpp:85-125 | to_int32_t as written; the result fits 32 bits |
| NumberConversion.ReinsertsImplicitOne | src/detail/JSUtil.cpp:115-119 | for exp < 32 the result keeps the bits below exp, sets bit exp and clears everything above |
| NumberConversion.OutOfRangeIsZero | src/detail/JSUtil.cpp:87-97 | exponent below 0 or above 83 (zeros, denormals, NaN, infinities, magnitudes below 1) gives 0 |
| NumberConversion.UnitRange | src/detail/JSUtil.cpp:106-124 | for 1 <= abs(x) < 2 the result agrees with ECMA-262 ToInt32 and is 1 or -1 by the sign bit |
| NumberConversion.NoShiftRange | src/detail/JSUtil.cpp:106-108 | at exponent 52 the result agrees with ECMA-262 ToInt32 |
| NumberConversion.TopRange | src/detail/JSUtil.cpp:106-108 | at exponent 83 the result agrees with ECMA-262 ToInt32 |
| NumberConversion.TruncatesTowardZero | src/detail/JSUtil.cpp:85-125 | 123 gives 123, 123.4 gives 123, -123 gives -123, 3 gives 3 |
| Engine.ToUint32 | src/detail/JSUtil.cpp:77-80 | the unsigned reading of to_int32_t, below 2^32 |
| Engine.Uint32RoundTrip | src/detail/JSUtil.cpp:77-80 | a number made from a uint32 reads back as that integer (read off the engine assumption that Faithful states) |
| Engine.ToInt32 | src/JSValue.cpp:141-143 | fits 32 bits; for a number value and faithful conversions it is to_int32_t of the number itself |
| StaticTables.TableShape | include/HAL/detail/JSExportClassDefinition.hpp:132-144 | a built table has one entry per key, each exactly once, no entry equal to the terminator, and the terminator last |
| StaticTables.TablesAgree | include/HAL/detail/JSExportClassDefinition.hpp:129-130 | two tables built from the same map have the same length and the same entries (equal up to order) |
| ExportClasses.JSExportClass.constructor | include/HAL/JSClass.hpp:128-131 | a default JSClass with an empty registry |
| ExportClasses.JSExportClass.AddFunctionProperty | include/HAL/JSClass.hpp:159-165 | the assertion holds iff the name is new; emplace keeps the first callback |
| ExportClasses.JSExportClass.AddValueProperty | include/HAL/JSClass.hpp:167-181 | emplaces into both the getter and the setter map, even for a null setter; assertion iff new in both; setters stay within getters |
| ExportClasses.JSExportClass.AddConstantProperty | include/HAL/JSClass.hpp:183-190 | emplaces a getter and a null constant slot, no setter; assertion iff the name is a new getter |
| ExportClasses.JSExportClass.AddHasPropertyCallback | include/HAL/JSClass.hpp:192-196 | the assertion holds iff no trap was set; the trap is set |
| ExportClasses.JSExportClass.AddGetPropertyCallback | include/HAL/JSClass.hpp:198-202 | the assertion holds iff no trap was set; the trap is set |
| ExportClasses.JSExportClass.AddSetPropertyCallback | include/HAL/JSClass.hpp:204-208 | the assertion holds iff no trap was set; the trap is set |
| ExportClasses.JSExportClass.InitializePropertyCallbacks | include/HAL/JSClass.hpp:247-296 | staticValues null iff no getters, else a table of the getter names; likewise functions; trap slots set only for registered traps; no other field changes |
| ExportClasses.BuildValueTable | include/HAL/JSClass.hpp:250-264 | the getter loop builds a value table of the getter names |
| ExportClasses.BuildFunctionTable | include/HAL/JSClass.hpp:268-281 | the function loop builds a function table of the function names |
| ExportClasses.ValueTableShape | include/HAL/JSClass.hpp:249-265 | one entry per getter name, once each, then the terminator; getter trampoline always, setter trampoline iff the name has a setter |
| ExportClasses.ConstantEntriesReadOnly | include/HAL/JSClass.hpp:258 | a constant's entry has no setter (constants are read-only) |
| ExportClasses.FunctionTableShape | include/HAL/JSClass.hpp:267-282 | one entry per function name, once each, with the function trampoline, then the terminator |
| Exports.JSExport.constructor | include/HAL/JSExport.hpp:39-40 | js_class__ starts as a fresh JSExportClass, not yet initialized |
| Exports.JSExport.AddFunctionProperty | include/HAL/JSExport.hpp:42-45 | forwards to js_class__: only its function map changes, as AddFunctionProperty does |
| Exports.JSExport.AddValueProperty | include/HAL/JSExport.hpp:47-50 | forwards to js_class__ (null setter and enumerable = true by default); only getters and setters change |
| Exports.JSExport.AddConstantProperty | include/HAL/JSExport.hpp:52-55 | forwards: only getters and constants change |
| Exports.JSExport.AddHasPropertyCallback | include/HAL/JSExport.hpp:57-60 | forwards: only the has trap changes |
| Exports.JSExport.AddGetPropertyCallback | include/HAL/JSExport.hpp:62-65 | forwards: only the get trap changes |
| Exports.JSExport.AddSetPropertyCallback | include/HAL/JSExport.hpp:67-70 | forwards: only the set trap changes |
| Exports.JSExport.SetParent | include/HAL/JSExport.hpp:82-85 | forwards: only js_class__'s parentClass changes |
| Exports.JSExport.SetClassVersion | include/HAL/JSExport.hpp:87-90 | forwards: only js_class__'s version changes |
| Exports.JSExport.Register | include/HAL/JSExport.hpp:42-90 | one registration through its forwarder: the name is registered and the registry only grows |
| Exports.JSExport.RunRegistrations | include/HAL/JSExport.hpp:76 | T::JSExportInitialize: every name registered is in the registry afterwards, and the registry only grows |
| Exports.JSExport.Class | include/HAL/JSExport.hpp:72-80 | the first call registers and then builds the tables from the resulting registry; later calls leave js_class__ and its tables unchanged; every call returns a copy retaining the class once |
| ExportDefinitions.ExportStatics.constructor | include/HAL/detail/JSExportClassDefinition.hpp:73-74 | the per-type value and function maps |
| ExportDefinitions.JSExportClassDefinition.Copy | include/HAL/detail/JSExportClassDefinition.hpp:84-94 | copy and move copy the base definition and rebuild the tables, which point into the new definition's own vectors |
| ExportDefinitions.JSExportClassDefinition.Assign | include/HAL/detail/JSExportClassDefinition.hpp:96-103 | takes the right-hand side's definition and rebuilds the tables |
| ExportDefinitions.JSExportClassDefinition.MoveAssign | include/HAL/detail/JSExportClassDefinition.hpp:105-112 | swaps, then rebuilds this definition's tables; the other side keeps this one's former base |
| ExportDefinitions.JSExportClassDefinition.Swap | include/HAL/detail/JSExportClassDefinition.hpp:114-123 | exchanges definitions and vectors |
| ExportDefinitions.JSExportClassDefinition.InitializeNamedPropertyCallbacks | include/HAL/detail/JSExportClassDefinition.hpp:125-164 | an empty map gives an empty vector and a null pointer, any other a table of its names; no other field changes; rerunning gives the same tables up to order |
| ExportDefinitions.BuildNamedValueTable | include/HAL/detail/JSExportClassDefinition.hpp:131-145 | the value loop builds a table of the names with ToJSPropertyAttributes flags |
| ExportDefinitions.BuildNamedFunctionTable | include/HAL/detail/JSExportClassDefinition.hpp:150-163 | the function loop builds a table of the names with ToJSPropertyAttributes flags |
| ExportDefinitions.NamedValueTableShape | include/HAL/detail/JSExportClassDefinition.hpp:132-144 | map-size entries plus the terminator, each name once; every entry has both trampolines and attributes equal to Mask of its attribute set |
| ExportDefinitions.ReadOnlyFromAttributes | include/HAL/detail/JSExportClassDefinition.hpp:137-139 | every entry has a setter; ReadOnly (and DontEnum, DontDelete) is set iff the property's attributes include it |
| ExportDefinitions.NamedFunctionTableShape | include/HAL/detail/JSExportClassDefinition.hpp:151-162 | map-size entries plus the terminator, each name once, with the trampoline and the Mask of its attributes |
| ExportDefinitions.InitializedDefinitionsAgree | include/HAL/detail/JSExportClassDefinition.hpp:85-112 | a definition and its copy (or assignee) have the same tables up to order, and null pointers in the same places |
| ExportObjects.JSExportObject.constructor | src/JSExportObject.cpp:13-15 | records the context handle; the object handle is null |
| ExportObjects.JSExportObject.PostInitialize | src/JSExportObject.cpp:17-19 | records the object's handle; the context handle is unchanged |
| ExportObjects.JSExportObject.PostCallAsConstructor | src/JSExportObject.cpp:21-23 | changes nothing |
| ExportObjects.JSExportObject.GetContext | src/JSExportObject.cpp:29-31 | a context for the recorded handle (setting the global handle if unset) |
| ExportObjects.JSExportObject.GetObject | src/JSExportObject.cpp:33-37 | requires both handles to be non-null; a JSObject for the recorded object, one more count |

## Left out

- The trampolines (CallGetterFunction, CallSetterFunction, CallNamedFunction
  and the has/get/set property trampolines, include/HAL/JSClass.hpp:210-244)
  are `// TODO` stubs in the source. They appear only as names in tables.
- The following do not exist in the source outside the tests, so they are
  not invented:
  - constant-value caching and the LRU cache;
  - pushing onto the native stack and its depth cap;
  - the initialize/finalize callbacks;
  - JSObject::FindJSObjectFromPrivateData.
- Engine operations are not modelled; their results are parameters or
  abstract store updates. These include:
  - property get/set beyond the store update;
  - script parsing and evaluation (JSEvaluateScript, JsParseScript);
  - JSON, IsArray/IsError and garbage collection;
  - the ChakraCore calls of src/JSContext.cpp.
- Floating point is not modelled: operator double, CreateNumber and
  bitwise_cast. to_int32_t takes the 64-bit pattern directly.
- NumberConversion.ToInt32: agreement with ECMA-262 section 9.5 is proved
  only at exponents 0, 52 and 83, for the out-of-range cases and on the
  four fixed bit patterns, not for every exponent. Variable bv64 shifts are too
  costly for the solver. In C++, `1 << 31`, `missingOne - 1` at exp 31 and
  `-INT32_MIN` are undefined behaviour; the model uses 32-bit wrap-around.
- std::call_once in JSExport<T>::Class() is a boolean flag; concurrency is
  not modelled.
- Exports.JSExport.AddValueProperty: the forwarder passes four arguments
  (include/HAL/JSExport.hpp:49) to a three-parameter method
  (include/HAL/JSClass.hpp:95). `enumerable` is dropped.
- Exports.JSExport.Class: the first-call ensures say every registered name
  is present and the registry only grew, not its exact contents. Trap and
  SetParent/SetClassVersion registrations are forwarded but not re-stated.
- JSExportObject::JSExportInitialize (src/JSExportObject.cpp:25-27) does
  nothing: JSExport<JSExportObject>::Class() runs with an empty
  registration list.
- JSClass::operator= is also defined inline with a swap
  (include/HAL/JSClass.hpp:33-37). The model follows src/JSClass.cpp:36-43.
- JSClass::Initialize (include/HAL/JSClass.hpp:39) is declared but not
  defined in the shown code. The engine class is always made from the empty
  definition (src/JSClass.cpp:13-16). The tables built later live only in
  the facade's own definition; the model does not say what the engine does
  with them.
- JSExportClassDefinition uses `static_values__`, `static_functions__` and
  `js_class_definition__`, which that class does not declare. They are
  modelled as members of its JSClassDefinition base, which is not part of
  this model. So are the JSClassDefinition copy, assignment and swap,
  which are taken to copy or exchange all three.
- ExportDefinitions.JSExportClassDefinition: the constructor from a
  JSExportClassDefinitionBuilder (line 53) is declared but not defined, and
  is not modelled. The builder's callbacks are reduced to their attribute
  sets.
- Static entry names are `c_str()` pointers. In
  JSExportClass<T>::InitializePropertyCallbacks
  (include/HAL/JSClass.hpp:254-256) that pointer belongs to a loop-local
  copy and dangles after the iteration. The model stores the name itself.
- ContextGroups.JSContextGroup.constructor: the initializer of `managed__`
  is in a header that is not part of this model, so the default
  constructor takes the flag as a parameter.
- ContextGroups.JSContextGroup.CreateContext:
  JSContext(const JSContextGroup&, const JSClass&) is not part of this
  model. The new context is known only by the handle the engine returns,
  and the temporary JSClass() of the one-argument overload is not modelled.
- Errors.FromRuntimeError:
  - the message string is made, and an error object with only "message"
    stands for the engine's MakeError;
  - the exception path of MakeError and the transient JSValue temporaries
    of the property setters are not modelled;
  - the ensures does not state that the object has no other properties.
- Arrays.GetPrivateItems: the owning JSObject copy that each GetPrivate<T>
  result holds is modelled once, in Objects.JSObject.GetPrivateAs. It is
  not repeated per element.
- Contexts.JSContext.CreateArray: the `static_cast<unsigned>` of an index
  at or above 2^31 and the engine's own extension of "length" are not
  modelled. Element placement and "length" are stated for fewer than 2^32
  arguments.
- Objects.JSObject.GetProperties: the JSPropertyNameArray and the
  per-name JSString temporaries retain and release their engine handles
  with a net effect of zero; those moves are not modelled. Property
  getters that run script are not modelled, so the exception path of
  GetProperty (src/JSObject.cpp:36-41) is left out; GetProperties is
  HAL_NOEXCEPT, so such an exception would end the process.
- Strings are sequences of Unicode scalar values. Lone UTF-16 surrogates,
  which the engine can hold, cannot be represented, and the UTF-8
  conversions of src/JSString.cpp:19-21 and 35-43 are taken as lossless
  apart from the NUL cut.
- The JSArray(arrayValue, arguments) constructor and the JSFunction wrapper
  are thin engine calls and are left out.

## Findings

| source | as written | input that shows it | evidently intended | confidence | as-written member | corrected member |
|---|---|---|---|---|---|---|
| src/JSValue.cpp:210-214 | operator= copies rhs (+1 incoming), swaps, then Protects the now-held incoming handle again (+1); the parameter's destructor drops the outgoing one | construct values on handles 1 and 2, assign the first from the second, destroy both: handle 2 keeps count 1 and stays engine-protected | copy-and-swap: incoming +1, outgoing -1 | not executed | Lifetime.ProtectAfterSwapLeaksIncoming | Values.JSValue.AssignBalanced |
| src/JSString.cpp:59-63 | the same pattern with JSStringRetain: the incoming string gains two retains and loses none | the same history on strings 1 and 2: string 2 keeps one engine retain after both facades are gone | copy-and-swap | not executed | Strings.JSString.Assign | Strings.JSString.AssignBalanced |
| src/JSObject.cpp:254-258 | operator= protects the handle still held before swapping, so the parameter's destructor only undoes that extra protect; the outgoing handle is never released | objects on handles 1 and 2, assign the first from the second, destroy both: handle 1 keeps count 1 | copy-and-swap: outgoing -1 | not executed | Lifetime.ProtectBeforeSwapLeaksOutgoing | Objects.JSObject.AssignBalanced |
| src/JSClass.cpp:36-43 | (include/HAL/JSClass.hpp:33-37 also defines an inline copy-and-swap operator= for the same class, so which one a build uses is open) operator= takes the by-value copy's handle, retains it again, and the parameter releases the incoming one; the outgoing class is never released | classes 1 and 2, assign the first from the second, destroy both: class 1 keeps one net engine retain | copy-and-swap | not executed | Lifetime.RetainWithoutSwapLeaksOutgoing | Classes.JSClass.AssignBalanced |
