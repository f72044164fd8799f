# jiahao-common: coupon codec and retry scheduler, modelled in Dafny

This project models three sequential pieces of the `jiahao-utils` module and
proves properties of them.

- **Coupon codec** (`coupon`). `generateCode(serialNum, fresh)` works in five steps:
  - it keeps four bits of `fresh` and puts them above the serial's low 32 bits, giving a 36-bit payload;
  - it weighs the payload's nibbles with a key row from `PRIME_TABLE` to make a check code;
  - it XORs the payload with an entry of `XOR_TABLE` picked by the check code;
  - it packs the check code above the payload;
  - it writes the packed value in a 32-character alphabet, lowest five-bit group first (`Base32.encode`).

  `parseCode` undoes each step. Then it checks the code against
  `COUPON_CODE_PATTERN`, recomputes the check code, and returns the serial.
  Java `long` is `bv64`, and `>>`, `>>>`, `&`, `|`, `^` and `<<` are written out
  with Java's semantics (module `JavaLong`).
- **Retry scheduler**, in both revisions, as a state machine over immutable maps. Time is whole seconds.
  - The newer `scheduled/util/ScheduledUtil` runs a task once, on a quick or a
    standard pool depending on its last duration. If the run returns false, it
    registers a retry. The retry ticks until the supplier succeeds, until it has
    seen `maxRetryTimes` ticks, or until a tick falls after a deadline.
  - The older `scheduled/ScheduledUtil` retries every 300 seconds until the
    supplier succeeds or three hours of the day have passed.
  - Registry discipline shared by both revisions (`TaskRegistry`): an id that already has a retry keeps it, and removing an absent id does nothing.
- **Small helpers**:
  - `ScheduleConfig`: its defaults, and `init`, which resolves unit names;
  - `TimeUnit.toSeconds`;
  - `BaseEnum.equalsValue`, with the value tables of `DesensitizationTypeEnum` and `SchedulePoolEnum`.

In the new revision, `getSupplier` fixes the retry deadline when the task is
submitted (`scheduled/util/ScheduledUtil.java:136`), not when the first run
fails; `ScheduledUtil.GetSupplier` computes it.

Events stand in for the executors. These are: a submission; the first run
finishing with its outcome and elapsed seconds; and a timer tick with its time
and the supplier's result. `LocalDateTime.now()` becomes a `now` parameter.

Where the source looks wrong, the model keeps two versions and proves a
property of each (see "## Findings"). `CodeUtil.Revision` selects the check-code
mask; `LegacyScheduledUtil.Revision` selects the old revision's cutoff.

## Model

| member | source | states |
|---|---|---|
| Base32.BaseCharsDistinct | jiahao-utils/src/main/java/coupon/Base32.java:11 | The alphabet has 32 characters, pairwise distinct. |
| Base32.IndexOf | jiahao-utils/src/main/java/coupon/Base32.java:49 | `indexOf` finds the character's position in the alphabet, or gives -1 exactly when the character is not in it. |
| Base32.IndexOfCharAt | jiahao-utils/src/main/java/coupon/Base32.java:11-49 | `indexOf` is a left inverse of `charAt` on positions 0..31. |
| Base32.DigitInAlphabet | jiahao-utils/src/main/java/coupon/Base32.java:49 | A character's widened index is below 32 exactly when the character is in the alphabet; any other character gives all ones, Java's `(long) -1`. |
| Base32.DigitIsIndexOf | jiahao-utils/src/main/java/coupon/Base32.java:49 | The digit table agrees with `(long) BASE_CHARS.indexOf(c)` for every character. |
| Base32.Encode | jiahao-utils/src/main/java/coupon/Base32.java:19-33 | `encode` gives the empty string exactly for 0. |
| Base32.EncodeByLoop | jiahao-utils/src/main/java/coupon/Base32.java:19-33 | The source's loop (append the low group's character, shift right by five without sign) computes `Encode`. |
| Base32.EncodeUsesAlphabet | jiahao-utils/src/main/java/coupon/Base32.java:23-30 | Every character of `encode(raw)` is in `BASE_CHARS`. |
| Base32.EncodeGroupAt | jiahao-utils/src/main/java/coupon/Base32.java:23-30 | Character `i` of `encode(raw)` is `BASE_CHARS[(raw >>> 5i) & 31]`: groups are emitted low group first. |
| Base32.EncodeCanonical | jiahao-utils/src/main/java/coupon/Base32.java:23 | The last character never stands for the zero group, because the loop stops once nothing is left. |
| Base32.EncodeLengthBelow | jiahao-utils/src/main/java/coupon/Base32.java:23 | A value below `32^k` takes at most `k` characters. |
| Base32.EncodeLengthAbove | jiahao-utils/src/main/java/coupon/Base32.java:23 | A value of at least `32^k` takes more than `k` characters; with `EncodeLengthBelow`, the length is the number of groups up to the highest non-zero one. |
| Base32.EncodeLength | jiahao-utils/src/main/java/coupon/Base32.java:19-33 | Any long, negative ones included, takes at most 13 characters. |
| Base32.EncodeFiftyBits | jiahao-utils/src/main/java/coupon/Base32.java:13-19 | A value below `2^50`, the range the doc comment names, takes at most ten characters. |
| Base32.DecodeByLoop | jiahao-utils/src/main/java/coupon/Base32.java:41-55 | The source's loop (from the last character down to the first, OR in the index shifted by `5i`, which Java masks to six bits) computes `Decode`. |
| Base32.DecodeIsSpelled | jiahao-utils/src/main/java/coupon/Base32.java:47-53 | On up to 13 characters, `decode` is the Horner value: the first character's digit OR 32 times the value of the rest. |
| Base32.DecodeEncode | jiahao-utils/src/main/java/coupon/Base32.java:14-55 | Round trip: `decode(encode(raw)) == raw` for every long, not only below `2^50`. |
| Base32.EncodeDecode | jiahao-utils/src/main/java/coupon/Base32.java:19-55 | On up to 12 characters, `encode(decode(code)) == code` exactly when the code is alphabet characters with no trailing zero digit. |
| RegexConstants.ClassIsAlphabet | jiahao-utils/src/main/java/coupon/RegexConstants.java:12 | The pattern's character class and `BASE_CHARS` hold the same characters. |
| RegexConstants.ClassIsAlphabetEverywhere | jiahao-utils/src/main/java/coupon/RegexConstants.java:12 | A string matches the coupon pattern exactly when it is 8 to 10 alphabet characters. |
| CodeUtil.XorTableBounds | jiahao-utils/src/main/java/coupon/CodeUtil.java:17-22 | All 16 XOR entries are 36-bit values with bit 35 set, so XOR keeps a payload within 36 bits. |
| CodeUtil.PrimeTableBounds | jiahao-utils/src/main/java/coupon/CodeUtil.java:27-44 | There are 16 key rows of ten weights, each between 1 and 1657. |
| CodeUtil.KeyRow | jiahao-utils/src/main/java/coupon/CodeUtil.java:136 | A four-bit fresh value always indexes a row inside `PRIME_TABLE`. |
| CodeUtil.FitsIsPositive | jiahao-utils/src/main/java/coupon/CodeUtil.java:140 | On a payload of at most ten nibbles, the loop test `payload > 0` is `payload != 0`. |
| CodeUtil.WeightedSumBound | jiahao-utils/src/main/java/coupon/CodeUtil.java:136-143 | The weighted nibble sum is at most 24855 per key position, and it never indexes the key past its ten entries. |
| CodeUtil.WeightedSumPositive | jiahao-utils/src/main/java/coupon/CodeUtil.java:140-143 | A non-zero payload has a positive sum, because every weight is positive. |
| CodeUtil.CheckSum | jiahao-utils/src/main/java/coupon/CodeUtil.java:136-143 | The sum over a payload of up to ten nibbles is below `2^18`, and zero exactly for a zero payload. |
| CodeUtil.CheckCodeAsWritten | jiahao-utils/src/main/java/coupon/CodeUtil.java:134-145 | With the source's 32-bit mask, the check code is below `2^18`, not `2^14`, and zero exactly for a zero payload. |
| CodeUtil.CalcCheckCodeByLoop | jiahao-utils/src/main/java/coupon/CodeUtil.java:134-145 | The source's loop (`sum += nibble * key[index++]`, `payload >>>= 4`, then the 32-bit mask) computes the closed-form check code. |
| CodeUtil.CheckCode | jiahao-utils/src/main/java/coupon/CodeUtil.java:128-145 | The corrected check code is below `2^14` and is the source's check code cut to 14 bits. |
| CodeUtil.Payload | jiahao-utils/src/main/java/coupon/CodeUtil.java:92 | The payload is exactly `fresh * 2^32 + (serialNum mod 2^32)`, and at most 36 bits. |
| CodeUtil.PayloadFields | jiahao-utils/src/main/java/coupon/CodeUtil.java:92-125 | The serial's low 32 bits and the fresh value both come back out of the payload. |
| CodeUtil.Obfuscate | jiahao-utils/src/main/java/coupon/CodeUtil.java:96-118 | The XOR keeps the payload within 36 bits, and XOR with the same entry undoes it. |
| CodeUtil.Pack | jiahao-utils/src/main/java/coupon/CodeUtil.java:98 | The packed long has the obfuscated payload in bits 0-35 and the check code from bit 36 up. |
| CodeUtil.PackFitsTenChars | jiahao-utils/src/main/java/coupon/CodeUtil.java:98-99 | The packed code fits ten characters exactly when the check code fits 14 bits. |
| CodeUtil.GenerateCode | jiahao-utils/src/main/java/coupon/CodeUtil.java:88-100 | A generated code has at most eleven characters, all from the alphabet. |
| CodeUtil.ReadCheckOfPack | jiahao-utils/src/main/java/coupon/CodeUtil.java:98-114 | Java's arithmetic `>> 36` followed by the 14-bit mask reads the packed check code back, cut to 14 bits. |
| CodeUtil.Deobfuscate | jiahao-utils/src/main/java/coupon/CodeUtil.java:96-118 | Cutting the check code to 14 bits keeps its low nibble, so decoding picks the XOR entry that encoding used. |
| CodeUtil.ParseGenerated | jiahao-utils/src/main/java/coupon/CodeUtil.java:88-120 | `parseCode` on a generated code reads back the check code (cut to 14 bits), the payload, and the fresh value `fresh & 0xF`. |
| CodeUtil.ParseCode | jiahao-utils/src/main/java/coupon/CodeUtil.java:107-126 | Whatever the code, the returned serial is below `2^32`. The format check passes exactly for 8 to 10 alphabet characters, and a failed check does not stop parsing. |
| CodeUtil.GenerateThenParse | jiahao-utils/src/main/java/coupon/CodeUtil.java:78-126 | For every serial and fresh value, `parseCode(generateCode(s, f))` returns `s & 0xFFFFFFFF`, and the tamper check passes exactly when the generated check code is below `2^14`. |
| CodeUtil.RoundTrip | jiahao-utils/src/main/java/coupon/CodeUtil.java:88-126 | With the 14-bit mask, every generated code parses to its serial's low 32 bits and passes the tamper check. |
| CodeUtil.WellFormedAsWritten | jiahao-utils/src/main/java/coupon/CodeUtil.java:98-144 | As written, a generated code matches the coupon pattern exactly when its check code is below `2^14`. |
| CodeUtil.CheckOverflowsAsWritten | jiahao-utils/src/main/java/coupon/CodeUtil.java:134-145 | Serial `0xFFFFFFFF` with fresh value 0 has the check code 48780, above `2^14`. |
| CodeUtil.ParseOverflowAsWritten | jiahao-utils/src/main/java/coupon/CodeUtil.java:107-126 | That code fails the format check and the tamper check, but `parseCode` still returns the serial `0xFFFFFFFF`. |
| CodeUtil.WellFormedCorrected | jiahao-utils/src/main/java/coupon/CodeUtil.java:96-110 | With the 14-bit mask, a generated code matches the pattern unless the check code is 0 and the fresh value is 8 or more. |
| CodeUtil.ShortCodeCorrected | jiahao-utils/src/main/java/coupon/CodeUtil.java:94-110 | Serial `0x81000010` with fresh value 8 has the 14-bit check code 0, and its code is too short for the pattern. |
| TaskRegistry.AddTask | jiahao-utils/src/main/java/scheduled/util/ScheduledUtil.java:95-104 | `addTask` for a registered id keeps the old retry; otherwise it adds exactly that id; no other id changes. |
| TaskRegistry.Remove | jiahao-utils/src/main/java/scheduled/util/ScheduledUtil.java:113-126 | `remove` of an absent id changes nothing; a present id is deleted whatever `cancel` reports; no other id changes. |
| TaskRegistry.AddTaskIdempotent | jiahao-utils/src/main/java/scheduled/ScheduledUtil.java:73-83 | A second `addTask` for the same id is a no-op, whatever it carries. |
| TaskRegistry.RemoveIdempotent | jiahao-utils/src/main/java/scheduled/ScheduledUtil.java:93-104 | Removing twice is removing once. |
| TaskRegistry.RemoveUndoesAdd | jiahao-utils/src/main/java/scheduled/ScheduledUtil.java:73-104 | Adding a new id and removing it again restores the registry. |
| ScheduleConfig.UnitsAreAll | jiahao-utils/src/main/java/scheduled/config/ScheduleConfig.java:39 | `TimeUnit.values()` lists every unit, and no two units share a name. |
| ScheduleConfig.UnitNamed | jiahao-utils/src/main/java/scheduled/config/ScheduleConfig.java:40-45 | A found unit has the given name, and nothing is found exactly when no unit has that name. |
| ScheduleConfig.UnitNamedName | jiahao-utils/src/main/java/scheduled/config/ScheduleConfig.java:40-45 | Looking up a unit's own name gives that unit. |
| ScheduleConfig.Init | jiahao-utils/src/main/java/scheduled/config/ScheduleConfig.java:37-47 | `init` resolves each unit field from its own string, independently of the other. A string naming no unit leaves its field unchanged (`null` on a new object). No other field changes. |
| ScheduleConfig.InitByLoop | jiahao-utils/src/main/java/scheduled/config/ScheduleConfig.java:37-47 | The source's single pass over `TimeUnit.values()`, testing both names on each unit, computes `Init`. |
| ScheduleConfig.ToSecondsOfInt | jiahao-utils/src/main/java/scheduled/util/ScheduledUtil.java:136 | An `int` count of any unit converts to seconds without saturating: minutes times 60, hours times 3600, days times 86400. |
| ScheduleConfig.DefaultDeadlineOffset | jiahao-utils/src/main/java/scheduled/config/ScheduleConfig.java:21-35 | With the defaults, `init` resolves both units to minutes, and the deadline lies 600 seconds ahead. |
| BaseEnum.EqualsValue | jiahao-utils/src/main/java/base/BaseEnum.java:30-37 | `equalsValue(null)` is false; a non-null value matches exactly the constant's own value. |
| DesensitizationTypeEnum.ValuesInOrder | jiahao-utils/src/main/java/dataMaskUtil/enums/DesensitizationTypeEnum.java:14-45 | The eleven constants carry 0 to 10 in declaration order, and every constant is listed. |
| DesensitizationTypeEnum.EqualsValueUnique | jiahao-utils/src/main/java/dataMaskUtil/enums/DesensitizationTypeEnum.java:14-45 | At most one constant satisfies `equalsValue(v)`. |
| DesensitizationTypeEnum.EqualsValueMatches | jiahao-utils/src/main/java/dataMaskUtil/enums/DesensitizationTypeEnum.java:14-45 | Some constant matches `v` exactly when `v` is 0 to 10, and that constant is the one at position `v`. |
| SchedulePoolEnum.EqualsValueDistinguishes | jiahao-utils/src/main/java/scheduled/enums/SchedulePoolEnum.java:18-35 | `equalsValue` tells the two pools apart: each matches its own value and not the other's. |
| ScheduledUtil.Classify | jiahao-utils/src/main/java/scheduled/util/ScheduledUtil.java:138-142 | A task goes to the quick pool exactly when its recorded duration is at most 10 seconds; an unrecorded id goes to the standard pool. |
| ScheduledUtil.GetSupplier | jiahao-utils/src/main/java/scheduled/util/ScheduledUtil.java:134-162 | The deadline is fixed at submission, `maxRetryInterval` in seconds from then, and the tick count starts at 0. It throws exactly when `maxRetryIntervalUnit` was left `null`, and then the exception is a `NullPointerException`. |
| ScheduledUtil.ScheduleFailure | jiahao-utils/src/main/java/scheduled/util/ScheduledUtil.java:100-101 | Scheduling the retry throws unless the retry unit is set and the interval is positive. |
| ScheduledUtil.AddTask | jiahao-utils/src/main/java/scheduled/util/ScheduledUtil.java:93-105 | A registered id keeps its retry, and nothing is scheduled, so nothing can throw. Otherwise it throws exactly when scheduling does, and if scheduling succeeds the registry gains exactly that id with that retry. |
| ScheduledUtil.Remove | jiahao-utils/src/main/java/scheduled/util/ScheduledUtil.java:113-126 | `remove` deletes only that id, and leaves the durations alone. |
| ScheduledUtil.Accept | jiahao-utils/src/main/java/scheduled/util/ScheduledUtil.java:55-72 | After the first run, the id's duration is overwritten with the elapsed seconds whatever happened, and other ids' durations are untouched. A false result registers the retry unless the id has one or scheduling throws; true or an exception registers nothing. |
| ScheduledUtil.Run | jiahao-utils/src/main/java/scheduled/util/ScheduledUtil.java:164-181 | The count check precedes the deadline check. A tick whose count has reached `maxRetryTimes` removes the retry without calling the supplier, and so does a tick strictly after the deadline. Otherwise the supplier runs, and the retry stays exactly when it returned false. The count goes up by one, the deadline never changes, and other ids are untouched. |
| ScheduledUtil.RunAllBounded | jiahao-utils/src/main/java/scheduled/util/ScheduledUtil.java:161-169 | Over any run of ticks, the supplier is called at most as often as the retry has ticks left. After more ticks than that, the retry is gone. |
| ScheduledUtil.RetriesBounded | jiahao-utils/src/main/java/scheduled/util/ScheduledUtil.java:55-181 | A submitted task whose first run fails is retried at most `maxRetryTimes` times. After `maxRetryTimes + 1` ticks, its retry is gone. |
| ScheduledUtil.RunAllKeepsDeadline | jiahao-utils/src/main/java/scheduled/util/ScheduledUtil.java:155-173 | However many ticks pass, a retry keeps the deadline it was given at submission. |
| ScheduledUtil.RunAllAbsent | jiahao-utils/src/main/java/scheduled/util/ScheduledUtil.java:113-117 | Once an id's retry is gone, later ticks change nothing and call nothing. |
| LegacyScheduledUtil.HourOf | jiahao-utils/src/main/java/scheduled/ScheduledUtil.java:42 | `getHour()` lies between 0 and 23, and the time falls within that hour of its day. |
| LegacyScheduledUtil.AddTask | jiahao-utils/src/main/java/scheduled/ScheduledUtil.java:71-84 | A registered id keeps its retry, and nothing is scheduled. Otherwise a delay that is not positive makes scheduling throw an `IllegalArgumentException`, and a positive one registers exactly that id with that retry. |
| LegacyScheduledUtil.Remove | jiahao-utils/src/main/java/scheduled/ScheduledUtil.java:92-105 | `remove` deletes only that id, and does nothing for an absent one. |
| LegacyScheduledUtil.Accept | jiahao-utils/src/main/java/scheduled/ScheduledUtil.java:30-52 | A false first result registers a retry that started at the failure time and repeats every 300 seconds, unless the id has one. True or an exception registers nothing, and an exception from `addTask` is caught. |
| LegacyScheduledUtil.Run | jiahao-utils/src/main/java/scheduled/ScheduledUtil.java:38-45 | Every tick calls the supplier, with no counter. The retry is removed exactly when the supplier returned true or the time is up, and other ids are untouched. |
| LegacyScheduledUtil.NeverTimesOutAsWritten | jiahao-utils/src/main/java/scheduled/ScheduledUtil.java:37-42 | As written, a retry begun at hour 21 or later is never out of time. |
| LegacyScheduledUtil.NeverStopsAsWritten | jiahao-utils/src/main/java/scheduled/ScheduledUtil.java:37-46 | As written, such a retry stays registered through any number of failing ticks, at any times. |
| LegacyScheduledUtil.MidnightAsWritten | jiahao-utils/src/main/java/scheduled/ScheduledUtil.java:37-42 | A retry begun at 22:00 that ticks at 01:00 the next day, three hours later, is not out of time as written, and is out of time when corrected. |
| LegacyScheduledUtil.SameDayAgrees | jiahao-utils/src/main/java/scheduled/ScheduledUtil.java:42 | On whole hours within one day, the hour-of-day cutoff and the three-hour cutoff agree. |
| LegacyScheduledUtil.StopsAfterThreeHours | jiahao-utils/src/main/java/scheduled/ScheduledUtil.java:38-45 | Corrected, the first tick at least three hours after the failure removes the retry, and no later tick finds it. |
| LegacyScheduledUtil.RunAllAbsent | jiahao-utils/src/main/java/scheduled/ScheduledUtil.java:92-96 | Once an id's retry is gone, later ticks change nothing. |

## Left out

- Executors, timers and threads are left out: the two `ThreadPoolExecutor`s, `ScheduledThreadPoolExecutor`, fixed-delay timing, rejection policies, `ResizeLinkedBlockingQueue`, and the threads started by the old `getSupplier` and `getSupplierByPool`. Submissions, completions and ticks are discrete events instead, and interleavings are not modelled.
- `LocalDateTime.now()` is a `now` parameter in whole seconds of local time. Sub-second durations and the truncation done by `between(...).getSeconds()` are not modelled: `elapsed` is given directly.
- Logging is left out. So are `init()` of the scheduler, which builds the executor, and `cancel`'s result, which is only logged.
- ScheduledUtil.Run: a supplier that throws during a retry tick is not modelled, because what happens next depends on how the executor suppresses later runs. The tick's result is a plain boolean.
- LegacyScheduledUtil.Run: the same goes for a throwing supplier in the old revision's retry closure.
- `scheduled/ScheduledTask.java` declares only `runnable` and `taskId`. The old revision calls a three-argument constructor and `getDelay()` that it lacks, so the delay is a field of `LegacyScheduledUtil.LegacyRetry`, set to `DAY_SCHEDULE_INTERVAL`.
- A `null` code is left out, so codes are plain strings. `parseCode(null)` prints the format message (`coupon/CodeUtil.java:108-109`) and then throws a `NullPointerException` in `Base32.decode`, at `code.toCharArray()` (`coupon/Base32.java:45`). `generateCode` takes two primitive `long`s, so nothing there can be `null`. `Integer` `null` is modelled only for `equalsValue`, where the source handles it.
- Codes are sequences of Unicode scalar values, while Java's `toCharArray` gives UTF-16 code units. The two differ only on codes holding characters outside the Basic Multilingual Plane, and those already fail the format check.
- CodeUtil.CheckSum: its integer value is related to the 64-bit check code only through bounds and zero-ness (`LongOf`). The full `sum mod 2^32` identity between `int` and `bv64` is not stated.
- CodeUtil.CalcCheckCodeByLoop: it requires a payload of at most ten nibbles, which is every payload `generateCode` and `parseCode` pass (at most 36 bits). A negative payload would end the source's loop at once with sum 0; that case is not modelled.
- Base32.DecodeIsSpelled: `decode` is stated as a Horner value in `bv64` arithmetic rather than as the integer sum of `indexOf(s[i]) * 32^i`. On alphabet strings of up to ten characters the two coincide, but the integer form is not proved.
- The description strings of the enums, their executor fields, and `SchedulePoolEnum`'s boxed `Integer` value are left out: they carry no logic.
- The ScheduleController classes, the websocket controller, the lock package, AES, authentication, data masking serializers, DTOs and demo applications are not part of this model. They are I/O, reflection and foreign-library glue.

## Findings

| source | as written | input that shows it | evidently intended | confidence | as-written member | corrected member |
|---|---|---|---|---|---|---|
| jiahao-utils/src/main/java/coupon/CodeUtil.java:144 | `calcCheckCode` masks the sum to 32 bits, though its comment, its doc and `CHECK_CODE_BITS` say 14 | `generateCode(0xFFFFFFFF, 0)`: check code 48780 ≥ 2^14, an 11-character code that fails the pattern, and `parseCode` reports it tampered, since it reads only 14 bits | `sum & FOURTEEN_BIT_MASK`, so every generated code parses untampered | high, not executed | CodeUtil.CheckOverflowsAsWritten | CodeUtil.RoundTrip |
| jiahao-utils/src/main/java/scheduled/ScheduledUtil.java:42 | the cutoff subtracts hours of the day, `now.getHour() - start.getHour() >= 3` | a retry begun at 22:00 that ticks at 01:00 gives 1 - 22 = -21; a retry begun at hour 21 or later never stops while the supplier keeps failing | three hours on the clock, `now - start >= 3h` | high, not executed | LegacyScheduledUtil.NeverStopsAsWritten | LegacyScheduledUtil.StopsAfterThreeHours |

The corrected mask has a limit of its own, which `CodeUtil.WellFormedCorrected`
and `CodeUtil.ShortCodeCorrected` state. A payload whose weighted sum is a
multiple of 2^14 gets check code 0. If its fresh value is 8 or more, the XOR
then clears bit 35, and the code comes out at seven characters or fewer.
Serial `0x81000010` with fresh value 8 is one such payload. `parseCode` still
returns the right serial for it and the tamper check passes, but the format
check fails.
