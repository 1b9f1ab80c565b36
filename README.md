# XP Framework core pieces, modelled in Dafny

This project models eight pieces of the XP Framework for PHP and proves properties about them:

- **Module registry** (`lang.reflect.Module`). `register()` stores a module under its name and fires its `initialize()` hook. `remove()` fires `finalize()` and drops the name. `loaded()` and `forName()` look a name up. `equals()` compares names only. (`Modules.dfy`)
- **Class loading from a URI** (the `classFromUri` / `loadClass` contract of `FileSystemClassLoaderTest`). The test's `compose()` and `newType()` helpers are modelled too. The loader's file system is a set of paths below a base directory. A URI is resolved against that base, and `.`, empty and `..` segments are collapsed. The result names a class when it is a `.class.php` file below the base. (`ClassPaths.dfy`, `ClassLoading.dfy`)
- **CRC-16** (`security.checksum.CRC16::fromString`). This is the reflected 0xA001 polynomial with initial value 0xFFFF, as in section 2.5.1.2 of the MODBUS over Serial Line Specification V1.02. (`Crc16.dfy`)
- **Characters** (the `lang.types.Character` contract exercised by `CharacterTest`). A character is built from a code point or from one character's bytes in UTF-8 (RFC 3629), ISO-8859-1 or US-ASCII, and turned back into bytes. (`Characters.dfy`)
- **Deferred invocation handler** (the contract of `util.AbstractDeferredInvokationHandler` exercised by `DeferredInvokationHandlerTest`). It creates its delegate lazily. A failed initialisation raises `DeferredInitializationException` and is retried on the next call. A successful one is kept. (`DeferredInvocation.dfy`)
- **Filters** (`util.Filters` and the `filter()` helper of `FiltersTest`). A Filters object holds a list of filters and an accepting function (`$ALL`, `$ANY`, `$NONE` or a closure). `filter()` keeps the accepted values in order. (`Filters.dfy`)
- **Field fixtures** (`FieldsTest::type` / `field`). A static cache defines one anonymous type per declaration. Each type is named after the test class and the current cache size. (`FieldFixtures.dfy`)
- **The `res://` stream wrapper** (`lang.ResourceProvider`). It translates a `res://` URI, guards the open mode and closes the held resource. Its stat records are read-only, and writing always fails. (`ResourceProvider.dfy`)

`Wrappers.dfy` holds the `Option` and `Result` types. A PHP exception is an `Err` value, or a `Threw` outcome in the deferred handler.

## Model

| member | source | states |
|---|---|---|
| Modules.Module.constructor | src/main/php/lang/reflect/Module.class.php:19-22 | a module keeps the name and class loader it was created with |
| Modules.Module.Equals | src/main/php/lang/reflect/Module.class.php:50-52 | a module equals itself; it never equals null (any value that is not a module); a module with another name is never equal |
| Modules.Module.ToString | src/main/php/lang/reflect/Module.class.php:59-61 | the string is `lang.reflect.Module<` + name + `@` + loader + `>`; its length and each part are pinned down |
| Modules.EqualsIsEquivalence | src/main/php/lang/reflect/Module.class.php:50-52 | equals() is reflexive, symmetric and transitive, and it never equals null; two modules are equal iff their names are, whatever their loaders |
| Modules.Registry.constructor | src/main/php/lang/reflect/Module.class.php:69-73 | the registry starts with no modules and no hook calls |
| Modules.Registry.Register | src/main/php/lang/reflect/Module.class.php:69-73 | the entry under m.name becomes m and no other entry changes; initialize() of m is logged once; m is returned |
| Modules.Registry.Remove | src/main/php/lang/reflect/Module.class.php:80-83 | finalize() of m is logged; the entry under m.name, whoever it holds, is dropped and no other entry changes; an absent name is no error |
| Modules.Registry.Loaded | src/main/php/lang/reflect/Module.class.php:91-93 | true iff the name is registered; nothing changes |
| Modules.Registry.ForName | src/main/php/lang/reflect/Module.class.php:102-107 | the registered module under the name, or ElementNotFoundException `No module "<name>" declared` exactly when it is absent |
| Modules.Initializations | src/main/php/lang/reflect/Module.class.php:71 | counts the initialize() calls of one module in the hook log |
| Modules.Finalizations | src/main/php/lang/reflect/Module.class.php:81 | counts the finalize() calls of one module in the hook log |
| Modules.ReplaceWithoutFinalize | src/main/php/lang/reflect/Module.class.php:69-73 | registering a second module under a taken name replaces the first; both are initialised once and neither is finalised |
| Modules.RegisterThenRemove | src/main/php/lang/reflect/Module.class.php:69-107 | after register then remove, the hooks are [initialize, finalize], loaded() is false and forName() raises |
| Modules.RemoveUnregistered | src/main/php/lang/reflect/Module.class.php:80-83 | removing a module named `absent` that is not registered leaves the registry as it was and logs exactly one finalize() call, on that module |
| ClassPaths.Split | core/src/test/php/net/xp_framework/unittest/reflection/FileSystemClassLoaderTest.class.php:90 | splitting on a separator yields at least one piece, and no piece holds the separator |
| ClassPaths.Join | core/src/test/php/net/xp_framework/unittest/reflection/FileSystemClassLoaderTest.class.php:90 | implode: the first piece starts the result, and with more than one piece the separator follows it |
| ClassPaths.JoinSplit | core/src/test/php/net/xp_framework/unittest/reflection/FileSystemClassLoaderTest.class.php:90 | joining the pieces of a split with the same separator gives back the string |
| ClassPaths.SplitJoin | core/src/test/php/net/xp_framework/unittest/reflection/FileSystemClassLoaderTest.class.php:90 | splitting a join of separator-free pieces gives back the pieces |
| ClassPaths.SplitFree | core/src/test/php/net/xp_framework/unittest/reflection/FileSystemClassLoaderTest.class.php:90 | a string without the separator splits into itself alone |
| ClassPaths.SplitSepPrefix | core/src/test/php/net/xp_framework/unittest/reflection/FileSystemClassLoaderTest.class.php:90 | a leading separator contributes an empty first piece |
| ClassPaths.SplitAppend | core/src/test/php/net/xp_framework/unittest/reflection/FileSystemClassLoaderTest.class.php:90 | a separator-free prefix joins the first piece of what follows |
| ClassPaths.JoinStep | core/src/test/php/net/xp_framework/unittest/reflection/FileSystemClassLoaderTest.class.php:90 | a join of two or more pieces is the first piece, one separator, then the join of the rest |
| ClassPaths.JoinHead | core/src/test/php/net/xp_framework/unittest/reflection/FileSystemClassLoaderTest.class.php:90 | a join starts with the first character of a non-empty first piece |
| ClassPaths.JoinConcat | core/src/test/php/net/xp_framework/unittest/reflection/FileSystemClassLoaderTest.class.php:90 | joining two non-empty lists is joining each, with one separator between |
| ClassPaths.JoinAppendLast | core/src/test/php/net/xp_framework/unittest/reflection/FileSystemClassLoaderTest.class.php:90 | text appended after a join extends its last piece |
| ClassPaths.Replace | core/src/test/php/net/xp_framework/unittest/reflection/FileSystemClassLoaderTest.class.php:43-44 | strtr with one character, defined character by character: its contract, proved by induction, says the result has the same length and every occurrence of `from` and only those become `to` |
| ClassPaths.SplitReplace | core/src/test/php/net/xp_framework/unittest/reflection/FileSystemClassLoaderTest.class.php:43 | translating dots to separators keeps the dotted pieces as path pieces |
| ClassPaths.ReplaceFree | core/src/test/php/net/xp_framework/unittest/reflection/FileSystemClassLoaderTest.class.php:43-44 | translating a character that does not occur changes nothing |
| ClassPaths.ReplaceAppend | core/src/test/php/net/xp_framework/unittest/reflection/FileSystemClassLoaderTest.class.php:43-44 | translation distributes over concatenation |
| ClassPaths.ReplaceSeparator | core/src/test/php/net/xp_framework/unittest/reflection/FileSystemClassLoaderTest.class.php:43-44 | translating a piece free of `from`, one separator and a tail changes only the separator and the tail |
| ClassPaths.ReplaceJoin | core/src/test/php/net/xp_framework/unittest/reflection/FileSystemClassLoaderTest.class.php:43-44 | translating the separator of a join gives the join with the other separator |
| ClassPaths.RTrim | core/src/test/php/net/xp_framework/unittest/reflection/FileSystemClassLoaderTest.class.php:92-93 | rtrim keeps a prefix that does not end in the character, and drops only that character |
| ClassPaths.Trimmed | core/src/test/php/net/xp_framework/unittest/reflection/FileSystemClassLoaderTest.class.php:90-96 | each argument of compose() is right-trimmed of separators, and null becomes the empty string |
| ClassPaths.ComposePieces | core/src/test/php/net/xp_framework/unittest/reflection/FileSystemClassLoaderTest.class.php:89-97 | compose(): the path it builds splits back into exactly its trimmed arguments, so a leading NULL makes it absolute and a NULL between two arguments doubles the separator |
| ClassPaths.LastIndexOf | core/src/test/php/net/xp_framework/unittest/reflection/FileSystemClassLoaderTest.class.php:37 | strrpos: none iff the character is absent; otherwise an index holding it, with none after |
| ClassPaths.NewType | core/src/test/php/net/xp_framework/unittest/reflection/FileSystemClassLoaderTest.class.php:37-40 | an undotted name is its own class name and path, with no namespace |
| ClassPaths.NewTypeDotted | core/src/test/php/net/xp_framework/unittest/reflection/FileSystemClassLoaderTest.class.php:41-45 | for a dotted name, the class is the last dotted piece, the path has dots made separators, and the namespace is the part before the last dot with backslashes |
| ClassPaths.SplitAfterLast | core/src/test/php/net/xp_framework/unittest/reflection/FileSystemClassLoaderTest.class.php:42 | the text after the last separator is the last piece of the split |
| ClassPaths.SplitLast | core/src/test/php/net/xp_framework/unittest/reflection/FileSystemClassLoaderTest.class.php:42 | a separator followed by a separator-free tail makes that tail the last of at least two pieces |
| ClassPaths.NormalizeFrom | core/src/test/php/net/xp_framework/unittest/reflection/FileSystemClassLoaderTest.class.php:99-173 | resolving segments onto a directory stack fails only when a `..` segment occurs |
| ClassPaths.NormalizePlain | core/src/test/php/net/xp_framework/unittest/reflection/FileSystemClassLoaderTest.class.php:99-153 | resolving only ordinary directory names appends them as they are |
| ClassPaths.NormalizeAppend | core/src/test/php/net/xp_framework/unittest/reflection/FileSystemClassLoaderTest.class.php:99-153 | resolving a + b is resolving b from where a leaves off; failure in a is failure of the whole |
| ClassPaths.NormalizeSkip | core/src/test/php/net/xp_framework/unittest/reflection/FileSystemClassLoaderTest.class.php:115-137 | an empty or `.` segment anywhere changes nothing |
| ClassPaths.NormalizeUpLevel | core/src/test/php/net/xp_framework/unittest/reflection/FileSystemClassLoaderTest.class.php:123-129 | a directory followed by `..` cancels out |
| ClassLoading.Found | core/src/test/php/net/xp_framework/unittest/reflection/FileSystemClassLoaderTest.class.php:99-173 | a class or null, present exactly when loading succeeded |
| ClassLoading.ClassFile | core/src/test/php/net/xp_framework/unittest/reflection/FileSystemClassLoaderTest.class.php:47 | the class file of a dotted name is a non-empty relative path |
| ClassLoading.LoadClass | core/src/test/php/net/xp_framework/unittest/reflection/FileSystemClassLoaderTest.class.php:102 | loadClass yields a class with the requested name, or ClassNotFoundException naming it |
| ClassLoading.Resolve | core/src/test/php/net/xp_framework/unittest/reflection/FileSystemClassLoaderTest.class.php:99-173 | a URI resolves from the root when absolute and from the base otherwise, and it fails to resolve only when it holds a `..` entry |
| ClassLoading.ClassNameRoundTrip | core/src/test/php/net/xp_framework/unittest/reflection/FileSystemClassLoaderTest.class.php:36-53 | the dotted name read off a class file below the base is the name whose class file is that path |
| ClassLoading.IsClassFile | core/src/test/php/net/xp_framework/unittest/reflection/FileSystemClassLoaderTest.class.php:160-168 | a path that is a class file below the base is never a directory of a well-formed loader |
| ClassLoading.ClassFromUri | core/src/test/php/net/xp_framework/unittest/reflection/FileSystemClassLoaderTest.class.php:99-173 | classFromUri(): its contract is stated by the lemmas about it. `ClassFromUriLoads`: a class comes only from an existing `.class.php` file below the base and equals loadClass of its name. `RelativePathLoadsClass` and `AbsoluteUnderBase`: every plain class file, relative or absolute through the base, gives its class. `NotClassFile`, `DirectoryEntry`, `MissingFile`, `OutsideBase`, `AbsoluteDirectory` and `AbsoluteMissingFile`: the null cases |
| ClassLoading.ClassFromUriLoads | core/src/test/php/net/xp_framework/unittest/reflection/FileSystemClassLoaderTest.class.php:99-153 | classFromUri yields a class only for an existing `.class.php` file below the base that is not a directory, and then loadClass of the class's own name gives the same class |
| ClassLoading.ClassFileOf | core/src/test/php/net/xp_framework/unittest/reflection/FileSystemClassLoaderTest.class.php:43-47 | the class file of a dotted name in a package is one directory per package piece, then the simple name with `.class.php` |
| ClassLoading.LoadClassPath | core/src/test/php/net/xp_framework/unittest/reflection/FileSystemClassLoaderTest.class.php:36-53 | loadClass of pkg.Simple succeeds iff base/pkg/Simple.class.php exists |
| ClassLoading.PlainSegments | core/src/test/php/net/xp_framework/unittest/reflection/FileSystemClassLoaderTest.class.php:47 | adding the class file extension keeps a path plain |
| ClassLoading.ResolveRelative | core/src/test/php/net/xp_framework/unittest/reflection/FileSystemClassLoaderTest.class.php:99-137 | a relative URI is resolved from the base |
| ClassLoading.ResolveAbsolute | core/src/test/php/net/xp_framework/unittest/reflection/FileSystemClassLoaderTest.class.php:139-173 | an absolute URI is resolved from the root |
| ClassLoading.RelativePathLoadsClass | core/src/test/php/net/xp_framework/unittest/reflection/FileSystemClassLoaderTest.class.php:99-113 | for every plain class name, classFromUri of its relative class file equals loadClass of the name |
| ClassLoading.DotEntry | core/src/test/php/net/xp_framework/unittest/reflection/FileSystemClassLoaderTest.class.php:115-121 | a `.` entry in a relative URI does not change what it names |
| ClassLoading.EmptyEntry | core/src/test/php/net/xp_framework/unittest/reflection/FileSystemClassLoaderTest.class.php:131-137 | a doubled separator does not change what a relative URI names |
| ClassLoading.UpLevelEntry | core/src/test/php/net/xp_framework/unittest/reflection/FileSystemClassLoaderTest.class.php:123-129 | `dir/..` does not change what a relative URI names |
| ClassLoading.Inserted | core/src/test/php/net/xp_framework/unittest/reflection/FileSystemClassLoaderTest.class.php:115-137 | inserting a separator-free entry keeps a relative URI relative |
| ClassLoading.AbsoluteUnderBase | core/src/test/php/net/xp_framework/unittest/reflection/FileSystemClassLoaderTest.class.php:139-153 | an absolute URI through the base names what the relative remainder names |
| ClassLoading.MissingFile | core/src/test/php/net/xp_framework/unittest/reflection/FileSystemClassLoaderTest.class.php:170-173 | a plain relative path to no file names no class |
| ClassLoading.ResolvePlain | core/src/test/php/net/xp_framework/unittest/reflection/FileSystemClassLoaderTest.class.php:99-113 | a relative path of plain entries resolves to the base followed by the entries |
| ClassLoading.PlainRelative | core/src/test/php/net/xp_framework/unittest/reflection/FileSystemClassLoaderTest.class.php:99-113 | plain entries make a relative path |
| ClassLoading.NotClassFile | core/src/test/php/net/xp_framework/unittest/reflection/FileSystemClassLoaderTest.class.php:160-163 | a plain relative path whose last entry does not end in `.class.php` names no class |
| ClassLoading.NotClassFileAppended | core/src/test/php/net/xp_framework/unittest/reflection/FileSystemClassLoaderTest.class.php:160-163 | a path whose last entry does not end in `.class.php` is no class file |
| ClassLoading.DirectoryEntry | core/src/test/php/net/xp_framework/unittest/reflection/FileSystemClassLoaderTest.class.php:165-168 | a plain relative path to a directory names no class |
| ClassLoading.ResolveRoot | core/src/test/php/net/xp_framework/unittest/reflection/FileSystemClassLoaderTest.class.php:155-158 | an absolute path of plain entries resolves to those entries from the root |
| ClassLoading.OutsideBase | core/src/test/php/net/xp_framework/unittest/reflection/FileSystemClassLoaderTest.class.php:155-158 | an absolute path of plain entries that does not lead below the base names no class |
| ClassLoading.ResolveUnderBase | core/src/test/php/net/xp_framework/unittest/reflection/FileSystemClassLoaderTest.class.php:139-153 | an absolute path through the base resolves to what the relative remainder resolves to |
| ClassLoading.AbsoluteEntriesFree | core/src/test/php/net/xp_framework/unittest/reflection/FileSystemClassLoaderTest.class.php:139-153 | the absolute path through a plain base has an empty first entry and no entry holding the separator |
| ClassLoading.NormalizeUnderBase | core/src/test/php/net/xp_framework/unittest/reflection/FileSystemClassLoaderTest.class.php:139-153 | resolving the root, a plain base and more entries is resolving the entries from the base |
| ClassLoading.AbsoluteDirectory | core/src/test/php/net/xp_framework/unittest/reflection/FileSystemClassLoaderTest.class.php:165-168 | the absolute path of a directory below the base names no class |
| ClassLoading.AbsoluteMissingFile | core/src/test/php/net/xp_framework/unittest/reflection/FileSystemClassLoaderTest.class.php:170-173 | the absolute path of a missing file below the base names no class |
| ClassLoading.Fixture | core/src/test/php/net/xp_framework/unittest/reflection/FileSystemClassLoaderTest.class.php:59-73 | the test fixture (CLT1, net.xp_framework.unittest.reflection.CLT2 and CLT1.txt below /tmp/fsclt) is a well-formed loader |
| ClassLoading.NewTypeWritesClassFile | core/src/test/php/net/xp_framework/unittest/reflection/FileSystemClassLoaderTest.class.php:36-53 | the file newType() writes is exactly where loadClass looks for the class |
| ClassLoading.BaseJoined | core/src/test/php/net/xp_framework/unittest/reflection/FileSystemClassLoaderTest.class.php:60 | the base folder's path is /tmp/fsclt |
| ClassLoading.BaseUriTrimmed | core/src/test/php/net/xp_framework/unittest/reflection/FileSystemClassLoaderTest.class.php:92 | compose() trims the base URI's trailing separator |
| ClassLoading.TrimmedUnderBase | core/src/test/php/net/xp_framework/unittest/reflection/FileSystemClassLoaderTest.class.php:89-97 | compose() arguments that start with the base trim to the base path and the entries |
| ClassLoading.ComposeUnderBase | core/src/test/php/net/xp_framework/unittest/reflection/FileSystemClassLoaderTest.class.php:89-97 | a path composed under the base is the absolute path of root, base and entries |
| ClassLoading.Clt1Loads | core/src/test/php/net/xp_framework/unittest/reflection/FileSystemClassLoaderTest.class.php:99-105 | in any loader whose base holds CLT1.class.php, loadClass('CLT1') and classFromUri('CLT1.class.php') both give CLT1 |
| ClassLoading.Clt1LoadClass | core/src/test/php/net/xp_framework/unittest/reflection/FileSystemClassLoaderTest.class.php:102 | in any loader whose base holds CLT1.class.php, loadClass('CLT1') gives CLT1 |
| ClassLoading.Clt2Loads | core/src/test/php/net/xp_framework/unittest/reflection/FileSystemClassLoaderTest.class.php:107-113 | in any loader whose base holds CLT2's file in the package directories, loadClass and classFromUri both give CLT2 |
| ClassLoading.LoadsClt1 | core/src/test/php/net/xp_framework/unittest/reflection/FileSystemClassLoaderTest.class.php:99-105 | CLT1 loads, and its class file names it |
| ClassLoading.LoadsClt2 | core/src/test/php/net/xp_framework/unittest/reflection/FileSystemClassLoaderTest.class.php:107-113 | net.xp_framework.unittest.reflection.CLT2 loads, and its class file names it |
| ClassLoading.FromRelativePathInRoot | core/src/test/php/net/xp_framework/unittest/reflection/FileSystemClassLoaderTest.class.php:99-105 | classFromUri('CLT1.class.php') equals loadClass('CLT1') |
| ClassLoading.FromRelativePath | core/src/test/php/net/xp_framework/unittest/reflection/FileSystemClassLoaderTest.class.php:107-113 | the composed relative path to CLT2's file gives CLT2 |
| ClassLoading.FromRelativePathWithDot | core/src/test/php/net/xp_framework/unittest/reflection/FileSystemClassLoaderTest.class.php:115-121 | ./CLT1.class.php gives CLT1 |
| ClassLoading.DotDotCancels | core/src/test/php/net/xp_framework/unittest/reflection/FileSystemClassLoaderTest.class.php:123-129 | in any loader, net/xp_framework/../../CLT1.class.php names what CLT1.class.php names |
| ClassLoading.FromRelativePathWithDotDot | core/src/test/php/net/xp_framework/unittest/reflection/FileSystemClassLoaderTest.class.php:123-129 | net/xp_framework/../../CLT1.class.php gives CLT1 |
| ClassLoading.DotAndEmptyEntries | core/src/test/php/net/xp_framework/unittest/reflection/FileSystemClassLoaderTest.class.php:131-137 | in any loader, ./ followed by an empty entry and CLT1.class.php names what CLT1.class.php names |
| ClassLoading.FromRelativePathWithMultipleSeparators | core/src/test/php/net/xp_framework/unittest/reflection/FileSystemClassLoaderTest.class.php:131-137 | .//CLT1.class.php gives CLT1 |
| ClassLoading.Clt1EntriesRelative | core/src/test/php/net/xp_framework/unittest/reflection/FileSystemClassLoaderTest.class.php:143 | the entry of CLT1's file below the base forms a relative path |
| ClassLoading.FromAbsolutePathInRoot | core/src/test/php/net/xp_framework/unittest/reflection/FileSystemClassLoaderTest.class.php:139-145 | the absolute path to CLT1's file gives CLT1 |
| ClassLoading.Clt2EntriesRelative | core/src/test/php/net/xp_framework/unittest/reflection/FileSystemClassLoaderTest.class.php:151 | the entries below the base that lead to CLT2's file form a relative path |
| ClassLoading.FromAbsolutePath | core/src/test/php/net/xp_framework/unittest/reflection/FileSystemClassLoaderTest.class.php:147-153 | the absolute path to CLT2's file gives CLT2 |
| ClassLoading.FromAbsolutePathNotInsideBase | core/src/test/php/net/xp_framework/unittest/reflection/FileSystemClassLoaderTest.class.php:155-158 | /CLT1.class.php, outside the base, gives null |
| ClassLoading.FromNonClassFile | core/src/test/php/net/xp_framework/unittest/reflection/FileSystemClassLoaderTest.class.php:160-163 | CLT1.txt gives null |
| ClassLoading.FromDirectory | core/src/test/php/net/xp_framework/unittest/reflection/FileSystemClassLoaderTest.class.php:165-168 | a directory gives null |
| ClassLoading.FromNonExistentFile | core/src/test/php/net/xp_framework/unittest/reflection/FileSystemClassLoaderTest.class.php:170-173 | a missing file gives null |
| Crc16.Round | skeleton/security/checksum/CRC16.class.php:28 | one round of the inner loop keeps a 16-bit accumulator within 16 bits |
| Crc16.Rounds | skeleton/security/checksum/CRC16.class.php:27-29 | any number of rounds keeps a 16-bit accumulator within 16 bits |
| Crc16.Step | skeleton/security/checksum/CRC16.class.php:26-29 | XORing in a byte and running the eight rounds keeps a 16-bit accumulator within 16 bits |
| Crc16.Fold | skeleton/security/checksum/CRC16.class.php:25-30 | folding the step over the bytes keeps a 16-bit accumulator within 16 bits, and folding over no bytes leaves it as it is |
| Crc16.Crc | skeleton/security/checksum/CRC16.class.php:24-31 | every checksum lies in 0..0xFFFF |
| Crc16.CrcEmpty | skeleton/security/checksum/CRC16.class.php:24-25 | the checksum of the empty string is 0xFFFF |
| Crc16.FoldAppend | skeleton/security/checksum/CRC16.class.php:25-30 | folding over s + t is folding over t from where s left off |
| Crc16.CrcAppend | skeleton/security/checksum/CRC16.class.php:25-30 | the checksum of s + t continues from the accumulator after s |
| Crc16.FoldSnoc | skeleton/security/checksum/CRC16.class.php:25-30 | one more byte is one more step |
| Crc16.NextByte | skeleton/security/checksum/CRC16.class.php:25-26 | the checksum of the first x + 1 bytes is one step from the checksum of the first x |
| Crc16.MixByte | skeleton/security/checksum/CRC16.class.php:26-29 | the outer loop body (XOR the byte in, then the inner loop of eight rounds) computes one step |
| Crc16.FromString | skeleton/security/checksum/CRC16.class.php:23-31 | the nested loops compute the left fold of the step from 0xFFFF over the bytes in order, and the result is at most 0xFFFF |
| Crc16.FoldTrace | skeleton/security/checksum/CRC16.class.php:25-30 | folding follows any trace in which each accumulator is the step of the one before |
| Crc16.StepValueLow | skeleton/security/checksum/CRC16.class.php:26-29 | the accumulator after each of the ASCII digits 1 to 3, starting from 0xFFFF |
| Crc16.StepValueMid | skeleton/security/checksum/CRC16.class.php:26-29 | the accumulator after each of the ASCII digits 4 to 6 |
| Crc16.StepValueHigh | skeleton/security/checksum/CRC16.class.php:26-29 | the accumulator after each of the ASCII digits 7 to 9 |
| Crc16.CheckValue | skeleton/security/checksum/CRC16.class.php:23-31 | the checksum of "123456789" is 0x4B37, the standard check value of CRC-16/MODBUS |
| Characters.Utf8Length | src/test/php/net/xp_framework/unittest/core/types/CharacterTest.class.php:34-37 | UTF-8 uses one to four bytes per code point |
| Characters.EncodeUtf8 | src/test/php/net/xp_framework/unittest/core/types/CharacterTest.class.php:34-37 | a code point encodes into its UTF-8 length in bytes, all after the first being continuation bytes |
| Characters.DecodeFirst | src/test/php/net/xp_framework/unittest/core/types/CharacterTest.class.php:24-27 | decoding a character reads one to all of the bytes and yields a scalar value |
| Characters.DecodeUtf8 | src/test/php/net/xp_framework/unittest/core/types/CharacterTest.class.php:54-65 | a decoded string has scalar values only, no more than it has bytes |
| Characters.DecodeAll | src/test/php/net/xp_framework/unittest/core/types/CharacterTest.class.php:24-65 | the code points of a byte string are scalar values, no more than the bytes; ISO-8859-1 accepts every byte string and US-ASCII exactly those without a byte above 0x7F, both one code point per byte of the same value; their only problem is Illegal |
| Characters.FromBytes | src/test/php/net/xp_framework/unittest/core/types/CharacterTest.class.php:24-65 | new Character(bytes, charset) gives a scalar value from non-empty bytes; empty bytes raise IllegalArgumentException; FormatException exactly when the bytes are not text in the charset; in ISO-8859-1 it succeeds exactly for one byte, whose value is the code point |
| Characters.FromCodePoint | src/test/php/net/xp_framework/unittest/core/types/CharacterTest.class.php:29-37 | new Character(int) succeeds exactly for scalar values and keeps the code point |
| Characters.GetBytes | src/test/php/net/xp_framework/unittest/core/types/CharacterTest.class.php:29-57 | getBytes() gives one to four bytes of a scalar value, or FormatException; in UTF-8 it succeeds exactly for scalar values; in ISO-8859-1 and US-ASCII the result is the single byte of the code point, and US-ASCII succeeds exactly below 0x80 |
| Characters.DecodeFirstOfEncoded | src/test/php/net/xp_framework/unittest/core/types/CharacterTest.class.php:54-57 | decoding the front of an encoded code point, whatever follows, gives the code point and its length |
| Characters.DecodeTwo | src/test/php/net/xp_framework/unittest/core/types/CharacterTest.class.php:54-57 | the same for two-byte code points |
| Characters.DecodeThree | src/test/php/net/xp_framework/unittest/core/types/CharacterTest.class.php:34-37 | the same for three-byte code points |
| Characters.DecodeFour | src/test/php/net/xp_framework/unittest/core/types/CharacterTest.class.php:34-37 | the same for four-byte code points |
| Characters.DecodeFirstIsCanonical | src/test/php/net/xp_framework/unittest/core/types/CharacterTest.class.php:54-65 | whatever decodes is the canonical encoding of what it decodes to, so there are no overlong forms |
| Characters.CanonicalTwo | src/test/php/net/xp_framework/unittest/core/types/CharacterTest.class.php:54-57 | a valid two-byte sequence is the encoding of its value |
| Characters.CanonicalThree | src/test/php/net/xp_framework/unittest/core/types/CharacterTest.class.php:34-37 | a valid three-byte sequence is the encoding of its value |
| Characters.CanonicalFour | src/test/php/net/xp_framework/unittest/core/types/CharacterTest.class.php:34-37 | a valid four-byte sequence is the encoding of its value |
| Characters.DecodeUtf8OfEncoded | src/test/php/net/xp_framework/unittest/core/types/CharacterTest.class.php:54-57 | decoding an encoded code point gives that code point alone |
| Characters.Utf8RoundTrip | src/test/php/net/xp_framework/unittest/core/types/CharacterTest.class.php:54-57 | every character survives getBytes('utf-8') and new Character(bytes, 'utf-8') |
| Characters.DecodedNothing | src/test/php/net/xp_framework/unittest/core/types/CharacterTest.class.php:44-47 | only the empty string decodes to no characters |
| Characters.Utf8BytesRoundTrip | src/test/php/net/xp_framework/unittest/core/types/CharacterTest.class.php:54-57 | bytes that make a UTF-8 character are what getBytes('utf-8') gives for it |
| Characters.Iso88591RoundTrip | src/test/php/net/xp_framework/unittest/core/types/CharacterTest.class.php:59-65 | in ISO-8859-1 every byte is the character of that code point and back |
| Characters.UsAsciiSingleByte | src/test/php/net/xp_framework/unittest/core/types/CharacterTest.class.php:39-52 | a US-ASCII byte is a character iff it is below 0x80, and then it is as in ISO-8859-1; otherwise FormatException |
| Characters.Iso88591TooLong | src/test/php/net/xp_framework/unittest/core/types/CharacterTest.class.php:44-47 | more than one ISO-8859-1 byte raises IllegalArgumentException |
| Characters.IncompleteMultiByteCharacter | src/test/php/net/xp_framework/unittest/core/types/CharacterTest.class.php:24-27 | byte E4 alone in UTF-8 raises FormatException |
| Characters.NullByte | src/test/php/net/xp_framework/unittest/core/types/CharacterTest.class.php:29-32 | code point 0 gives byte 00 |
| Characters.EuroSymbol | src/test/php/net/xp_framework/unittest/core/types/CharacterTest.class.php:34-37 | code point 8364 gives E2 82 AC in UTF-8 |
| Characters.IllegalCharacter | src/test/php/net/xp_framework/unittest/core/types/CharacterTest.class.php:39-42 | byte E4 in US-ASCII raises FormatException |
| Characters.IllegalLength | src/test/php/net/xp_framework/unittest/core/types/CharacterTest.class.php:44-47 | 'ABC' raises IllegalArgumentException |
| Characters.UsAsciiCharacter | src/test/php/net/xp_framework/unittest/core/types/CharacterTest.class.php:49-52 | 'H' gives back its byte |
| Characters.UmlautCharacter | src/test/php/net/xp_framework/unittest/core/types/CharacterTest.class.php:54-57 | UTF-8 'ä' gives back C3 A4 |
| Characters.Utf8Character | src/test/php/net/xp_framework/unittest/core/types/CharacterTest.class.php:59-65 | UTF-8 C3 A4 and ISO-8859-1 E4 are the same character |
| DeferredInvocation.Run | src/test/php/net/xp_framework/unittest/util/DeferredInvokationHandlerTest.class.php:58-98 | successive invocations yield one outcome per call |
| DeferredInvocation.Invocation | src/test/php/net/xp_framework/unittest/util/DeferredInvokationHandlerTest.class.php:13-98 | invoke() with a delegate leaves the state; without one it calls initialize() once more; the outcome is the kept delegate's call, or DeferredInitializationException naming the method when no delegate is kept |
| DeferredInvocation.DelegatePassesThrough | src/test/php/net/xp_framework/unittest/util/DeferredInvokationHandlerTest.class.php:13-36 | with a delegate in place, invoke() yields exactly what the delegate's method yields, a thrown exception included, and the state stays |
| DeferredInvocation.FirstInvocation | src/test/php/net/xp_framework/unittest/util/DeferredInvokationHandlerTest.class.php:38-56 | without a delegate, initialize() is called once; a delegate it yields is kept and called; null or an exception raises DeferredInitializationException naming the method and keeps nothing |
| DeferredInvocation.DelegateIsKept | src/test/php/net/xp_framework/unittest/util/DeferredInvokationHandlerTest.class.php:58-75 | once a delegate is kept, every later invocation goes to it and initialize() is never called again |
| DeferredInvocation.InitializeCalls | src/test/php/net/xp_framework/unittest/util/DeferredInvokationHandlerTest.class.php:58-98 | initialize() is called once per invocation until it first succeeds, and not after |
| DeferredInvocation.Handler.constructor | src/test/php/net/xp_framework/unittest/util/DeferredInvokationHandlerTest.class.php:15-21 | a new handler has no delegate and has not initialised |
| DeferredInvocation.Handler.Invoke | src/test/php/net/xp_framework/unittest/util/DeferredInvokationHandlerTest.class.php:13-98 | the new state and the outcome are those of one invocation from the old state |
| DeferredInvocation.EchoRunnableInvocation | src/test/php/net/xp_framework/unittest/util/DeferredInvokationHandlerTest.class.php:13-24 | run(1, 2, 'Test') on an echoing delegate returns [1, 2, 'Test'] |
| DeferredInvocation.ThrowingRunnableInvocation | src/test/php/net/xp_framework/unittest/util/DeferredInvokationHandlerTest.class.php:26-36 | the delegate's IllegalStateException passes through |
| DeferredInvocation.InitializeReturnsNull | src/test/php/net/xp_framework/unittest/util/DeferredInvokationHandlerTest.class.php:38-46 | initialize() returning null raises DeferredInitializationException |
| DeferredInvocation.InitializeThrowsException | src/test/php/net/xp_framework/unittest/util/DeferredInvokationHandlerTest.class.php:48-56 | initialize() throwing raises DeferredInitializationException caused by that exception |
| DeferredInvocation.InitializeNotCalledAgainAfterSuccess | src/test/php/net/xp_framework/unittest/util/DeferredInvokationHandlerTest.class.php:58-75 | both invocations return true; the initialize() that would throw the second time is not reached |
| DeferredInvocation.InitializeCalledAgainAfterFailure | src/test/php/net/xp_framework/unittest/util/DeferredInvokationHandlerTest.class.php:77-98 | the first invocation raises and the second one initialises and returns true |
| Filters.AllAccept | src/test/php/net/xp_framework/unittest/util/FiltersTest.class.php:89-95 | $ALL accepts iff every filter accepts |
| Filters.AnyAccepts | src/test/php/net/xp_framework/unittest/util/FiltersTest.class.php:97-103 | $ANY accepts iff some filter accepts |
| Filters.NoneAccepts | src/test/php/net/xp_framework/unittest/util/FiltersTest.class.php:105-111 | $NONE accepts iff no filter accepts |
| Filters.NoneIsNotAny | src/test/php/net/xp_framework/unittest/util/FiltersTest.class.php:97-111 | $NONE is the negation of $ANY |
| Filters.Accepts | src/test/php/net/xp_framework/unittest/util/FiltersTest.class.php:89-111 | $ALL accepts iff every filter does, $ANY iff one does, $NONE iff none does, and a closure as it returns |
| Filters.AddedFilterTakesPart | src/test/php/net/xp_framework/unittest/util/FiltersTest.class.php:58-63 | an added filter takes part in each predefined verdict |
| Filters.Filters.constructor | src/test/php/net/xp_framework/unittest/util/FiltersTest.class.php:32-51 | a new Filters object holds the given list and accepting function |
| Filters.Filters.Add | src/test/php/net/xp_framework/unittest/util/FiltersTest.class.php:58-79 | add() appends the filter, keeps the accepting function and returns the object itself |
| Filters.Filters.Accepting | src/test/php/net/xp_framework/unittest/util/FiltersTest.class.php:65-79 | accepting() sets the accepting function, keeps the list and returns the object itself |
| Filters.Filters.Accept | src/test/php/net/xp_framework/unittest/util/FiltersTest.class.php:81-87 | accept() raises NullPointerException exactly when no accepting function is set; otherwise it applies that function to the list |
| Filters.Create | src/test/php/net/xp_framework/unittest/util/FiltersTest.class.php:32-56 | the constructor accepts null or a closure as accepting function and raises IllegalArgumentException for anything else |
| Filters.AllOf | src/test/php/net/xp_framework/unittest/util/FiltersTest.class.php:89-95 | allOf() builds a Filters object with the list and $ALL |
| Filters.AnyOf | src/test/php/net/xp_framework/unittest/util/FiltersTest.class.php:97-103 | anyOf() builds a Filters object with the list and $ANY |
| Filters.NoneOf | src/test/php/net/xp_framework/unittest/util/FiltersTest.class.php:105-111 | noneOf() builds a Filters object with the list and $NONE |
| Filters.Filtered | src/test/php/net/xp_framework/unittest/util/FiltersTest.class.php:19-25 | the filtered values are no more than the input |
| Filters.FilterValues | src/test/php/net/xp_framework/unittest/util/FiltersTest.class.php:19-25 | the filter() loop returns the accepted values, in order |
| Filters.FilteredMembers | src/test/php/net/xp_framework/unittest/util/FiltersTest.class.php:19-25 | a value is in the output iff it is in the input and accepted |
| Filters.FilteredAppend | src/test/php/net/xp_framework/unittest/util/FiltersTest.class.php:19-25 | filtering distributes over concatenation, so order is kept |
| Filters.FilteredIdempotent | src/test/php/net/xp_framework/unittest/util/FiltersTest.class.php:19-25 | filtering twice is filtering once |
| Filters.CanCreate | src/test/php/net/xp_framework/unittest/util/FiltersTest.class.php:32-51 | a list with a closure, an empty list, and a null accepting function are all accepted |
| Filters.ConstructorRejectsString | src/test/php/net/xp_framework/unittest/util/FiltersTest.class.php:53-56 | a string as accepting function raises IllegalArgumentException |
| Filters.AddFilter | src/test/php/net/xp_framework/unittest/util/FiltersTest.class.php:58-63 | after add(), the new filter decides accept(2) |
| Filters.SetAccepting | src/test/php/net/xp_framework/unittest/util/FiltersTest.class.php:65-70 | after accepting(), the new function decides accept(2) |
| Filters.FluentInterface | src/test/php/net/xp_framework/unittest/util/FiltersTest.class.php:72-79 | chained add() and accepting() act on one object |
| Filters.AcceptWithoutAcceptingFunction | src/test/php/net/xp_framework/unittest/util/FiltersTest.class.php:81-87 | accept() without an accepting function raises NullPointerException |
| Filters.FilterAllOf | src/test/php/net/xp_framework/unittest/util/FiltersTest.class.php:89-95 | allOf(> 1, < 4) keeps [2, 3] of [1, 2, 3, 4] |
| Filters.AnyOfVerdicts | src/test/php/net/xp_framework/unittest/util/FiltersTest.class.php:97-103 | the anyOf filters' verdicts on each test input |
| Filters.FilterAnyOf | src/test/php/net/xp_framework/unittest/util/FiltersTest.class.php:97-103 | anyOf keeps ["Hello", "World", "!"] |
| Filters.ContainsExamples | src/test/php/net/xp_framework/unittest/util/FiltersTest.class.php:105-111 | strstr finds .txt and test in the inputs that hold them, and neither in index.html |
| Filters.NoneOfVerdicts | src/test/php/net/xp_framework/unittest/util/FiltersTest.class.php:105-111 | the noneOf filters reject file.txt and test.php and accept index.html |
| Filters.FilterNoneOf | src/test/php/net/xp_framework/unittest/util/FiltersTest.class.php:105-111 | noneOf keeps ["index.html"] |
| FieldFixtures.FixtureDefinition | src/test/php/net/xp_framework/unittest/reflection/FieldsTest.class.php:19-26 | a fixture type is a class extending lang.Object with the given modifiers |
| FieldFixtures.NatToString | src/test/php/net/xp_framework/unittest/reflection/FieldsTest.class.php:27 | the decimal form of the cache size is non-empty |
| FieldFixtures.ParseNatToString | src/test/php/net/xp_framework/unittest/reflection/FieldsTest.class.php:27 | reading back a decimal form gives the number |
| FieldFixtures.NatToStringInjective | src/test/php/net/xp_framework/unittest/reflection/FieldsTest.class.php:27 | different numbers have different decimal forms |
| FieldFixtures.GeneratedName | src/test/php/net/xp_framework/unittest/reflection/FieldsTest.class.php:27 | the generated name is the test class's name followed by digits that read back as the cache size |
| FieldFixtures.GeneratedNamesDistinct | src/test/php/net/xp_framework/unittest/reflection/FieldsTest.class.php:27 | names generated at different cache sizes differ |
| FieldFixtures.FreshName | src/test/php/net/xp_framework/unittest/reflection/FieldsTest.class.php:27 | the name generated for the current cache size is held by no cached type |
| FieldFixtures.InsertNamedBelow | src/test/php/net/xp_framework/unittest/reflection/FieldsTest.class.php:27 | caching a type under the name for the current size keeps every cached name generated for a size below the new one |
| FieldFixtures.InsertDistinct | src/test/php/net/xp_framework/unittest/reflection/FieldsTest.class.php:18-27 | caching a type under a fresh name keeps the cached names distinct |
| FieldFixtures.CacheInsert | src/test/php/net/xp_framework/unittest/reflection/FieldsTest.class.php:18-27 | caching a new declaration under the name for the current size keeps the cache valid and grows it by one |
| FieldFixtures.FixtureCache.constructor | src/test/php/net/xp_framework/unittest/reflection/FieldsTest.class.php:8 | the cache starts empty |
| FieldFixtures.FixtureCache.Type | src/test/php/net/xp_framework/unittest/reflection/FieldsTest.class.php:17-30 | a cached declaration returns its type unchanged, with no new definition; otherwise one type is defined under the name for the current size and cached, the cache grows by one, and the cached names stay distinct |
| FieldFixtures.FixtureCache.Field | src/test/php/net/xp_framework/unittest/reflection/FieldsTest.class.php:39-41 | field() is the field `fixture` of the type for `{ decl }`: a cached type is returned with the cache and the defineType() log unchanged; otherwise one type is defined under the name for the current size, cached, and logged, and the cache grows by one |
| FieldFixtures.KeyedByDeclaration | src/test/php/net/xp_framework/unittest/reflection/FieldsTest.class.php:17-30 | asking again with other modifiers returns the first type, and defineType() runs once |
| FieldFixtures.DistinctDeclarations | src/test/php/net/xp_framework/unittest/reflection/FieldsTest.class.php:17-30 | two declarations get two types with different names |
| ResourceProvider.SkipSpace | src/main/php/lang/ResourceProvider.class.php:64 | %s skips a white-space prefix and stops at the first other character |
| ResourceProvider.CString | src/main/php/lang/ResourceProvider.class.php:64 | sscanf reads the longest prefix without NUL, which is the whole string or ends where a NUL stands |
| ResourceProvider.Token | src/main/php/lang/ResourceProvider.class.php:64 | %s reads the longest prefix without white space; the NUL that also ends it is cut off beforehand by CString |
| ResourceProvider.HasResPrefix | src/main/php/lang/ResourceProvider.class.php:64 | the path starts with res:// |
| ResourceProvider.TranslatePath | src/main/php/lang/ResourceProvider.class.php:61-66 | a name results exactly when the part of the path before any NUL starts with res:// and something other than white space follows; the name is non-empty and free of white space and NUL; otherwise IllegalArgumentException `Invalid resource expression: "<path>"` quoting the whole path |
| ResourceProvider.CStringOf | src/main/php/lang/ResourceProvider.class.php:64 | a NUL-free prefix is read whole, and reading continues into what follows it |
| ResourceProvider.SkipSpaceOf | src/main/php/lang/ResourceProvider.class.php:64 | skipping white space before a word leaves the word |
| ResourceProvider.TokenOf | src/main/php/lang/ResourceProvider.class.php:64 | reading a word stops at the white space after it |
| ResourceProvider.TranslateNamesWord | src/main/php/lang/ResourceProvider.class.php:61-66 | res://, white space, a NUL-free word and anything after white space or a NUL translates to that word |
| ResourceProvider.TranslateInverse | src/main/php/lang/ResourceProvider.class.php:61-66 | res:// followed by a resource name (non-empty, without white space or NUL) translates back to the name |
| ResourceProvider.PrefixAlone | src/main/php/lang/ResourceProvider.class.php:64-65 | res:// with nothing after it raises IllegalArgumentException |
| ResourceProvider.NulEndsPath | src/main/php/lang/ResourceProvider.class.php:64 | a path with a NUL translates, and to the same name, exactly when its part before the NUL does |
| ResourceProvider.PrefixThenNul | src/main/php/lang/ResourceProvider.class.php:64-65 | res:// followed by a NUL raises IllegalArgumentException, whatever follows the NUL |
| ResourceProvider.StatRecord | src/main/php/lang/ResourceProvider.class.php:138-152 | a stat record has mode 0444, uid and gid 1, zero times and the resource's size |
| ResourceProvider.UrlStat | src/main/php/lang/ResourceProvider.class.php:161-180 | url_stat raises iff the path does not translate, gives false iff the loader does not provide the resource, and otherwise gives a read-only record of its size |
| ResourceProvider.Provider.constructor | src/main/php/lang/ResourceProvider.class.php:11 | a new wrapper holds no resource |
| ResourceProvider.Provider.StreamOpen | src/main/php/lang/ResourceProvider.class.php:37-44 | a mode other than r or rb gives false and changes nothing; an untranslatable path raises; otherwise the named resource is held open and the result is true |
| ResourceProvider.Provider.StreamClose | src/main/php/lang/ResourceProvider.class.php:72-75 | the held resource is closed and released |
| ResourceProvider.Provider.StreamWrite | src/main/php/lang/ResourceProvider.class.php:93-95 | writing always raises MethodNotImplementedException `Not writeable.` |
| ResourceProvider.Provider.StreamStat | src/main/php/lang/ResourceProvider.class.php:138-152 | fstat gives the record of the held resource's size |
| ResourceProvider.OpenThenStat | src/main/php/lang/ResourceProvider.class.php:37-180 | opening a URI succeeds iff stat() on it has a record, and fstat then reports what stat() reports |
| ResourceProvider.OpenThenClose | src/main/php/lang/ResourceProvider.class.php:37-75 | closing an opened resource closes that resource and leaves nothing to stat |
| ResourceProvider.WriteModeRefused | src/main/php/lang/ResourceProvider.class.php:38 | opening for writing gives false, whatever the path |

## Left out

- The bodies of `FileSystemClassLoader`, `lang.types.Character`, `util.AbstractDeferredInvokationHandler`, `util.Filters`, `ClassLoader::defineType` and reflection `getField` are not part of this model. Their behaviour is modelled from the unit tests that exercise them and from the standards they follow.
- ClassLoading.ClassFromUri: the loader is modelled as resolving the URI lexically, not through realpath(). The path is resolved from the base, or from the root when absolute. `.` and empty segments are dropped, and `..` removes the entry before it. The result names a class only when it is a `.class.php` file strictly below the base. This differs from realpath() in three ways. (1) A `..` cancels its directory even when that directory does not exist, so `nosuchdir/../CLT1.class.php` names CLT1 (`UpLevelEntry`), where realpath() fails on the missing component. (2) A `..` with nothing left to remove names nothing (`NormalizeFrom` gives None), so `/../tmp/fsclt/CLT1.class.php` gives null, where realpath() stays at `/` and gives CLT1. (3) Symbolic links are not modelled.
- The file system is a set of existing file and directory paths. `newFile()`, `defineClasses()`, `removeTempDir()` and the contents of the written class files are not modelled. The temporary directory is fixed as /tmp.
- The arguments of `compose()` that are Folder objects are given as their URI strings, and NULL arguments as `None`.
- `CRC16::fromFile` (file I/O) is not modelled.
- Crc16.FromString: the PHP integer is a 64-bit vector; the accumulator is proved never to exceed 0xFFFF, so no wrap-around can occur.
- Modules: `initialize()` and `finalize()` are empty hooks in the module base class, so the registry records their calls as a log. `getClassName()` is fixed to `lang.reflect.Module`, and a class loader's `toString()` is its description string.
- Modules.Registry.Register, Modules.Registry.Remove: `initialize()` and `finalize()` are assumed not to throw. The source stores the module before calling `initialize()` and calls `finalize()` before dropping the entry, so a throwing override in a subclass would leave the module registered; the model's hook log cannot fail.
- Characters: the iconv encodings that the test's `setUp()` installs are modelled as ISO-8859-1 as the default charset. The string coercion tests (`echo`, a cast, `str_replace`) and the ignored transliteration test are not modelled.
- Filters.Create: the messages of the constructor's IllegalArgumentException are not modelled, only its type.
- DeferredInvocation: `initialize()` is the sequence of its successive results, and a delegate is a function from method name and arguments to an outcome. Proxy creation is not modelled.
- FieldFixtures: a null declaration (the default of `type()`) is the empty-string key, as PHP converts a null array key. PHP's conversion of numeric-string keys to integers does not change which declarations share an entry, so it is not modelled.
- ResourceProvider: the `stream_wrapper_register` and `__static` singleton are not modelled, nor is the delegation to `ClassLoader::getDefault()`. The loader is a map from resource names to contents.
- ResourceProvider.Provider.StreamOpen: a resource the loader does not provide is a `ResourceNotFound` error, since the loader's own exception is not part of this model. The open call's `options` and `opened_path` are not modelled.
- ResourceProvider.Provider.StreamClose, ResourceProvider.Provider.StreamStat: called with no resource held, they give a `NullResource` error where PHP fails calling a method on null.
- The `stream_read`, `stream_eof`, `stream_tell`, `stream_seek` and `stream_flush` passthroughs are not modelled, nor is the `context` field.
- Concurrency is not modelled: nothing in the code defines types or registers modules concurrently.
