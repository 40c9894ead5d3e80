# Verification of a FIX engine's core

This project models the parts of QuickFIX whose correctness is not plain from reading one
function, and proves what they are for. `dafny verify dfyconfig.toml` checks all of it with
Dafny 4.11. Each module opens with a comment that says what it is about.

- **Integers and times** (`Division`, `Decimal`, `IntConvertor`, `DateTimes`, `TimeConvertor`). Printing
  into buffers two digits at a time and parsing with wrap-around tests are proved against
  decimal numerals; the calendar arithmetic, with C++ division written out, against the
  proleptic Gregorian calendar. Strings and values round-trip, and the exact conditions are
  proved where they do not.
- **Fields, orders and field maps** (`Fields`, `MessageOrder`, `FieldMaps`, `FieldTrees`,
  `Extractions`, `MessageTexts`). Cached metrics, tag orders held in an array or a hash table, the
  sorted vector with its groups as two plain maps, length and checksum of a tree against its
  encoding, the frame that `toString` puts around a message, and the loop that reads a text
  field by field, which gets back what was written.
- **Who owns a group** (`Forests`, `Ownership`, `Lifetimes`, `Shapes`, `Cycles`, `GroupLists`,
  `Readings`, `GroupMemory`). Field maps at addresses, in arena slots, heap blocks and variables,
  with pointers. Each step that could go wrong (destroying, freeing, resetting or dropping an
  arena) requires what makes it right, and a ledger counts beginnings and ends, so the operations
  are proved free of double and missing destruction over all runs; copies are proved to hold, at
  every depth, what their sources held; and the tree that is read by following the pointers is
  proved to change as the values of `FieldMaps` do, which joins the two models of a field map.
- **The file store** (`StoreFormats`, `FileStores`). Files are byte sequences that outlive the
  store; the store is proved to be a map with two counters over all runs, stops between the two
  writes of a message, within a reset and within an opening included.
- **The order matcher** (`OrderBook`, `OrderHistory`, `Market`, `OrderMatch`). The recursion on
  values that specifies matching, the classes that update orders in place against it, and
  price-time priority, conservation and the fate of every order over all runs.
- **Stopping an acceptor** (`AcceptorStop`). A mutex, a condition variable and joins as a step
  relation over any number of threads.
- **Shared group classes** (`GroupClasses`). The generator's stack and table.

A module on values specifies, and the classes beside it are proved to do the same in place:
`OrderBook` for `Market`, `Parts` for `FieldMap`, the step functions of `FileStores` and
`GroupClasses` for their classes.

## What the code does otherwise than one may expect

- `getWeekDay` is one day ahead in the years, counted from March, that are negative and not leap
  years, and right in all others (`DateTimes.WeekDayIff`).
- A timestamp or time that ends in a dot without digits is accepted, and printed without the dot
  (`TimeConvertor.TimeParsePrint`, `TimeConvertor.DotAloneIsLost`). Impossible dates are accepted
  and normalised when printed (`TimeConvertor.DateParsePrint`). Second 60 is accepted and carried
  into the next minute; 23:59:60 gives hour 24, which does not parse (`DateTimes.SecondSixty`).
- The difference of two instants can be a second more than the whole seconds between them
  (`DateTimes.MinusIs`).
- A field whose value has an SOH does not read back from its text (`Extractions.FieldExtracts`).
- `hasGroup` with a number below 1 says yes where `getGroupRef` throws (`FieldMaps.HasNumberIff`).
- `removeField` takes out two fields of a repeated tag when the tag has groups, because the
  removal of the groups removes the field once more (`FieldMaps.RemoveFieldEffect`).
- `get` of the store returns nothing when the range begins at 0 (`FileStores.GetAfterRun`), and
  a message with a NUL comes back shortened (`FileStores.CString`).
- `reset` of the store is not atomic: after a stop between its first two steps get fails for
  messages that are not empty (`FileStores.StopWithinReset`), until new messages make the body
  long enough: then it returns pieces of these for old numbers (`FileStores.ReadsTheWrongMessage`).
  Stops at other places lose nothing but the messages (`FileStores.ResetStopHolds`).
- A record file that has grown longer than a record loses counters of 2^31 or more
  (`FileStores.LongRecordFails`).
- A stop before a new session file is written, in a reset or in the first opening, leaves a store
  without a lasting creation time until the next reset (`FileStores.SessionStaysEmpty`).
- A swap between a field map and one below it, and a move assignment to a map from one above it,
  leave groups whose pointers form a cycle (`Cycles.SwapTangles`, `Cycles.MoveTangles`);
  a move assignment from a map below the target reads what it has destroyed
  (`Cycles.MoveFromBelowIsDead`). Copy assignment is right wherever the source is.
- A transport thread that is the first to call `stop` waits for itself
  (`AcceptorStop.OwnClaimantNeverFinishes`).
- A group name that is another name with `_2` or the like can make two groups share a class
  file (`GroupClasses.UnsafeNamesCollide`).

## Model

| member | source | states |
|---|---|---|
| `IntConvertor.NumberOfSymbolsIn` | src/C++/FieldConvertors.h:58-101 | counting four digits at a time gives the length of the decimal text of every value of the type, sign included |
| `IntConvertor.DigitsFourAtATime` | src/C++/FieldConvertors.h:64-68 | dividing by 10000 takes off exactly four digits |
| `IntConvertor.DigitsTwoAtATime` | src/C++/FieldConvertors.h:121-128 | a pair from the table of digit pairs is the last two digits |
| `IntConvertor.IntegerToString` | src/C++/FieldConvertors.h:114-146 | the text of the value ends up at the end of the window, everything else in the buffer as it was; never below the buffer's start when the text fits |
| `IntConvertor.SizeToString` | src/C++/FieldConvertors.h:119-138 | the same for the digits of an unsigned number |
| `IntConvertor.IntegerToStringPadded` | src/C++/FieldConvertors.h:148-157 | the window holds the text, padded on the left to the full width |
| `IntConvertor.TextFits` | src/C++/FieldConvertors.h:221-223 | no value of a type, the minimum included, has a text longer than the buffer of the convertor; digits10 is the largest number of digits that always fit the type |
| `IntConvertor.Convert` | src/C++/FieldConvertors.h:219-226 | prints the decimal text of every value |
| `IntConvertor.WrapsAround` | src/C++/FieldConvertors.h:254-267 | the test for wrap-around in the unsigned type misses no overflow and reports no false one |
| `IntConvertor.ParseDigits` | src/C++/FieldConvertors.h:252-269 | the loop yields the number of the digits, and fails early only on a non-digit or on a number too large for either sign |
| `IntConvertor.Parse` | src/C++/FieldConvertors.h:228-292 | accepts exactly an optional minus sign (signed types only) and digits whose value fits the type, and returns that value |
| `IntConvertor.ParsePrint` | src/C++/FieldConvertors.h:219-308 | parsing what was printed gives back every value |
| `IntConvertor.PrintParse` | src/C++/FieldConvertors.h:219-308 | a string that parses is what is printed for its value if and only if it has the printed length; so two texts of one value differ only in leading zeros, minus zero included |
| `DateTimes.JulianIncreases` | src/C++/FieldTypes.h:478-484 | the Julian day is strictly increasing in year, month and day, from 1 March -4800 |
| `DateTimes.JulianClosedForm` | src/C++/FieldTypes.h:478-484 | the truncating formula counts days from the starts of March years |
| `DateTimes.YMDIsDate` | src/C++/FieldTypes.h:487-498 | every day from -32044 on gives a valid date whose Julian day it is |
| `DateTimes.YMDIsDateIff` | src/C++/FieldTypes.h:487-498 | a day gives a valid date if and only if it is at least -32044 |
| `DateTimes.DateRoundTrip` | src/C++/FieldTypes.h:478-498 | every valid date from 1 March -4800 comes back from its Julian day |
| `DateTimes.YMDIncreases` | src/C++/FieldTypes.h:487-498 | later days give later dates |
| `DateTimes.YMDFitsInt` | src/C++/FieldTypes.h:487-498 | no intermediate value leaves the range of int up to the stated bound, and one does just above it |
| `DateTimes.WeekDayIff` | src/C++/FieldTypes.h:217-227 | for every day from -32044 on, the century formula for the weekday agrees with counting days modulo 7 if and only if the year, counted from March, is not negative or is a leap year |
| `DateTimes.WeekDayAgrees` | src/C++/FieldTypes.h:217-227 | so it agrees from 1 March of year 0 on |
| `DateTimes.WeekDayDisagrees` | src/C++/FieldTypes.h:217-227 | and, for a witness that the condition is needed, not the day before: 29 February of year 0 |
| `DateTimes.HMSRoundTrip` | src/C++/FieldTypes.h:207-214 | hours, minutes, seconds and nanoseconds of a time of day make up that time |
| `DateTimes.ClockRoundTrip` | src/C++/FieldTypes.h:429-432 | a clock time is read back from the nanoseconds it is turned into |
| `DateTimes.SecondSixty` | src/C++/FieldTypes.h:429-432 | second 60 is carried into the next minute, and stays within the day if and only if the time is not 23:59:60 |
| `DateTimes.LessIsEarlier` | src/C++/FieldTypes.h:523-538 | operator< orders by the total of nanoseconds |
| `DateTimes.DateTime.AddSeconds` | src/C++/FieldTypes.h:355-373 | adding seconds, of either sign, moves the instant by exactly that much and keeps the time within the day |
| `DateTimes.MinusUndoesPlus` | src/C++/FieldTypes.h:548-553 | subtracting gives back the seconds that were added |
| `DateTimes.MinusIs` | src/C++/FieldTypes.h:548-553 | the subtraction is the difference of the whole seconds that had passed, which is the whole seconds of the difference, or one more if and only if the left fraction of a second is the smaller |
| `DateTimes.EpochIs` | src/C++/FieldTypes.h:78-78 | time_t 0 is midnight of 1 January 1970, day 2440588 |
| `DateTimes.TimeTRoundTrip` | src/C++/FieldTypes.h:503-513 | a time_t, negative ones too, comes back from the DateTime it is turned into, which is the right instant |
| `TimeConvertor.PrintTimeStamp` | src/C++/FieldConvertors.h:565-592 | writes the text of the timestamp, which is what `TimeConvertor.PrintedTimeStamp` says |
| `TimeConvertor.PrintTimeOnly` | src/C++/FieldConvertors.h:727-749 | the same for a time of day, with `TimeConvertor.PrintedTimeOnly` |
| `TimeConvertor.PrintDate` | src/C++/FieldConvertors.h:852-864 | the same for a date |
| `TimeConvertor.PrintedTimeStamp` | src/C++/FieldConvertors.h:565-592 | byte by byte: the digits of year, month and day, a minus, those of hour, minute and second with colons, and, unless the precision is 0 or less, a dot and the whole units of that precision, of nine digits at most: 17 bytes or 18 and the precision; and it parses to the instant cut off at that precision |
| `TimeConvertor.PrintedTimeOnly` | src/C++/FieldConvertors.h:727-749 | the same for a time of day, in 8 bytes or 9 and the precision |
| `TimeConvertor.ParseTimeStamp` | src/C++/FieldConvertors.h:594-721 | accepts exactly the lengths, digits, separators and ranges that the code checks |
| `TimeConvertor.ParseTimeOnly` | src/C++/FieldConvertors.h:751-846 | the same for a time of day |
| `TimeConvertor.ParseDate` | src/C++/FieldConvertors.h:866-906 | the same for a date |
| `TimeConvertor.TimeStampParsedIff` | src/C++/FieldConvertors.h:594-721 | byte by byte: a text is accepted as an instant if and only if it has 17 to 27 bytes, the digits and separators in their places, a month from 1 to 12, a day from 1 to 31, a clock up to 23:59:60 and nothing or a dot and digits behind it, and these denote that instant |
| `TimeConvertor.TimeOnlyParsedIff` | src/C++/FieldConvertors.h:751-846 | the same for a time of day, of 8 to 18 bytes |
| `TimeConvertor.DateParsedIff` | src/C++/FieldConvertors.h:866-906 | the same for a date |
| `TimeConvertor.TimeStampPrintParse` | src/C++/FieldConvertors.h:565-721 | parsing what was printed gives the time truncated to the precision |
| `TimeConvertor.TimeOnlyPrintParse` | src/C++/FieldConvertors.h:727-846 | the same for a time of day |
| `TimeConvertor.DateOnlyPrintParse` | src/C++/FieldConvertors.h:852-906 | a printed date parses to the same day |
| `TimeConvertor.TimeParsePrint` | src/C++/FieldConvertors.h:727-846 | a time that parses prints back as it was if and only if its second is below 60 and it does not end in a dot without digits |
| `TimeConvertor.DateParsePrint` | src/C++/FieldConvertors.h:852-906 | a date that parses prints back if and only if it is a real calendar date |
| `TimeConvertor.TimeStampParsePrint` | src/C++/FieldConvertors.h:565-721 | a timestamp prints back if and only if its date and its time do |
| `TimeConvertor.DotAloneIsLost` | src/C++/FieldConvertors.h:699-721 | of all timestamps of 18 characters: those that parse end in a dot, and each parses to what it is without the dot |
| `TimeConvertor.TimeStampOrder` | src/C++/FieldConvertors.h:565-592 | an earlier time never prints lexicographically later, and prints strictly earlier with nine digits |
| `OrderBook.InsertKeeps` | examples/ordermatch/Market.h:41-42 | an order that comes last goes behind all orders of its side with a better or an equal price and before all others, and these stay as they are, in their order |
| `OrderBook.ExecutesExactly` | examples/ordermatch/Market.cpp:71-151 | an order placed in an uncrossed book trades exactly the smaller of its quantity and the open opposite quantity at compatible prices, and leaves the book uncrossed |
| `OrderBook.PassSound` | examples/ordermatch/Market.cpp:83-99 | a pass of the loop trades the two orders that are first in price-time priority, at the ask's price, which is within both limits; both have that price and quantity for their last execution, the quantity less open and more executed, and the average right |
| `OrderBook.MatchSound` | examples/ordermatch/Market.cpp:71-106 | so does the whole loop |
| `OrderBook.PlaceSound` | examples/ordermatch/Application.cpp:186-192 | so does the insertion |
| `OrderBook.CancelSound` | examples/ordermatch/Application.cpp:207-213 | so does a cancel, which leaves the book uncrossed |
| `OrderBook.EraseFindsTheSame` | examples/ordermatch/Market.cpp:42-69 | erase takes out the very order that find returned and cancel closed, even when client IDs repeat |
| `OrderBook.FrontsDecide` | examples/ordermatch/Market.cpp:83-83 | no bid of a book reaches any ask of it if and only if the first bid does not reach the first ask |
| `OrderBook.BothSidesExecuteEqually` | examples/ordermatch/Market.cpp:71-151 | bids and asks give up equal quantities, which are what was traded |
| `OrderBook.NewAverage` | examples/ordermatch/Order.h:75-79 | the running average times the executed quantity is the value of the fills, and stays within a buyer's limit |
| `OrderBook.Run` | examples/ordermatch/Application.cpp:186-213 | over every run of orders and cancels: no bid reaches any ask, and the book is in priority, every trade between the two first of the book that it records, at a price within both limits, and for every order in the book open + executed = quantity, executed and average as its fills say; `OrderHistory.PriorityOverRun` ties the recorded book to the run |
| `OrderHistory.RunComplete` | examples/ordermatch/Application.cpp:186-213 | over every run, an order that was submitted is canceled, or filled, or in the book with exactly what its executions have left; the book holds no others |
| `OrderHistory.SubmitMakes` | examples/ordermatch/Order.h:45-56 | every submit makes the order that it asks for, all of it open; its number is how many submits came before |
| `OrderHistory.MadeBySubmit` | examples/ordermatch/Order.h:45-56 | and every order of a run was made so |
| `OrderHistory.PriorityOverRun` | examples/ordermatch/Market.cpp:71-106 | every trade of every run is made by one event of it, before which the log had fewer trades and after which it has this one; and every other order of its side that was submitted by then, not canceled by then and not filled, has a worse price than the party of its side, or the same price and came later |
| `Market.Order.Execute` | examples/ordermatch/Order.h:75-84 | updates the order in place as its value specifies; `OrderBook.PassSound` says what that leaves in every trade |
| `Market.Market.Insert` | examples/ordermatch/Market.cpp:29-40 | a new order object in its place, the others untouched |
| `Market.Market.Trade` | examples/ordermatch/Market.cpp:135-151 | both orders execute the smaller open quantity at the ask's price |
| `Market.Market.Match` | examples/ordermatch/Market.cpp:71-106 | the loop over the two multimaps does what the matching of values does, ends, and queues a copy of both orders after every trade |
| `Market.Market.Find` | examples/ordermatch/Market.cpp:108-133 | the first order on the side with the client ID, and none where the code throws |
| `Market.Market.Erase` | examples/ordermatch/Market.cpp:42-69 | takes out the first order on the side with the client ID |
| `OrderMatch.Application.ProcessOrder` | examples/ordermatch/Application.cpp:186-205 | one step of the run for a new order; reports its acceptance as it came in, and then each trade to the bid and to the ask: with the trade's price and quantity as the last, what is left open, and filled if and only if nothing is |
| `OrderMatch.Application.ProcessCancel` | examples/ordermatch/Application.cpp:207-213 | one step of the run for a cancel; reports the closed order, and nothing when there is none |
| `AcceptorStop.NextKeeps` | src/C++/Acceptor.cpp:251-320 | every statement of every thread keeps the invariant of the protocol |
| `AcceptorStop.StopsOnceAndJoins` | src/C++/Acceptor.cpp:251-320 | in every run, with any number of threads, one thread at most runs the body, and a caller from outside the transport returns only when all its threads are joined |
| `AcceptorStop.NoDeadlock` | src/C++/Acceptor.cpp:257-281 | while a call is under way some thread can take a step, when the claimant is not a transport thread |
| `AcceptorStop.InternalDescends` | src/C++/Acceptor.cpp:300-320 | every step that is not a new call or a spurious wake-up brings the threads nearer to their end |
| `AcceptorStop.EveryCallReturns` | src/C++/Acceptor.cpp:251-320 | the threads take a bounded number of steps, and when they can take no more every call has returned |
| `AcceptorStop.OwnThreadCanClaim` | src/C++/Acceptor.cpp:267-271 | nothing keeps a transport thread from being the first caller |
| `AcceptorStop.OwnClaimantNeverFinishes` | src/C++/Acceptor.cpp:308-313 | the condition is needed: then it waits for itself, and no outside caller returns |
| `AcceptorStop.WaitsForLogout` | src/C++/Acceptor.cpp:300-306 | without force the claimant sleeps a second at a time, as long as a session is logged on and ten times at most; with force it does not |
| `GroupClasses.Generator.GroupEnds` | spec/GeneratorJava.rb:116-139 | pops the frame, finds or makes its class, and tells the enclosing frame |
| `GroupClasses.Generator.GroupStarts` | spec/GeneratorJava.rb:102-105 | pushes a frame within a message, and does nothing outside |
| `GroupClasses.Generator.MessageStarts` | spec/GeneratorJava.rb:97-100 | a new frame stack with the message's frame |
| `GroupClasses.Generator.MessageEnds` | spec/GeneratorJava.rb:141-143 | pops the message's frame |
| `GroupClasses.GroupRuns` | spec/GeneratorJava.rb:102-139 | a group with its nested groups leaves the frame stack as high as it was, its own class recorded in the enclosing frame |
| `GroupClasses.SpecRuns` | spec/GeneratorJava.rb:97-145 | every stream of messages runs through |
| `GroupClasses.RunTidy` | spec/GeneratorJava.rb:116-128 | over every stream the table is one-to-one, the classes of a name have the numbers from 1 to its count, each of them, and no class file is written twice, when no name is another name with a number |
| `GroupClasses.SameClassSameGroup` | spec/GeneratorJava.rb:116-139 | one class means one structure, through all nested groups |
| `GroupClasses.SharedExactlyWhenEqual` | spec/GeneratorJava.rb:92-139 | two occurrences get the same class if and only if they are equal in name, tag, delimiter, order and nested groups |
| `GroupClasses.UnsafeNamesCollide` | spec/GeneratorJava.rb:122-128 | the condition on names is needed: whenever one name is another with a number, some specification gives two different groups one class |
| `Fields.CalculateMetrics` | src/C++/Field.h:230-247 | length and byte sum of the encoding, without building it |
| `Fields.AppendTo` | src/C++/Field.h:149-163 | appends tag=value and SOH |
| `Fields.ByteSumConcat` | src/C++/Field.h:227-229 | byte sums add up, which is why the sum of the parts is that of the encoding |
| `Fields.FieldBase.Swap` | src/C++/Field.h:109-114 | exchanges values together with cached metrics, also with itself |
| `Fields.FieldBase.SetTag` | src/C++/Field.h:116-120 | a new tag drops the cached metrics |
| `Fields.FieldBase.SetString` | src/C++/Field.h:128-132 | a new value drops the cached metrics |
| `Fields.FieldBase.Assign` | src/C++/Field.h:84-90 | metrics are copied with the value they belong to |
| `Fields.FieldBase.GetLength` | src/C++/Field.h:174-178 | the length of the encoding, whatever was called before |
| `Fields.FieldBase.GetTotal` | src/C++/Field.h:181-185 | the byte sum of the encoding, whatever was called before |
| `MessageOrder.StrictTotalOrder` | src/C++/MessageSorters.h:198-240 | each of the four orders is a strict total order on tags |
| `MessageOrder.GroupOrderIs` | src/C++/MessageSorters.h:222-240 | of two fields that a group's order names, the one whose last place in it is earlier comes first; a named field comes before every other, and the others by number |
| `MessageOrder.PartOrdersAre` | src/C++/MessageSorters.h:40-129 | the header's order is the one that names 8, 9 and 35, the trailer's the one that names 93 and 89, with 10 behind everything; the normal order is by number |
| `MessageOrder.PositionNames` | src/C++/MessageSorters.cpp:99-105 | the position of a tag is the last at which the order names it |
| `MessageOrder.FieldOrder.SetOrder` | src/C++/MessageSorters.cpp:69-131 | array or hash table, whichever is chosen holds the positions of the order; an empty order becomes the normal one |
| `MessageOrder.FieldOrder.Compare` | src/C++/MessageSorters.h:198-212 | compares as the order that was set, in either form |
| `MessageOrder.Positions` | src/C++/MessageSorters.cpp:96-105 | the array form |
| `MessageOrder.Table` | src/C++/MessageSorters.cpp:109-130 | the hash form: every tag of the order is found at the end of its probe sequence with its position, every other slot is empty |
| `MessageOrder.StoreKeeps` | src/C++/MessageSorters.cpp:122-129 | storing a tag disturbs no other tag's probe |
| `MessageOrder.HasEmptySlot` | src/C++/MessageSorters.cpp:79-89 | a table with more slots than tags has an empty slot, so every probe ends |
| `MessageOrder.Probe` | src/C++/MessageSorters.cpp:132-148 | finds the position, or 0 for a tag that the order does not name |
| `FieldMaps.FieldMap.Lookup` | src/C++/FieldMap.h:417-437 | linear below 16 fields and binary from there, both find the first field of the tag |
| `FieldMaps.FieldMap.LowerBound` | src/C++/FieldMap.h:430-430 | the first field that does not precede the tag |
| `FieldMaps.FieldMap.FindPositionFor` | src/C++/FieldMap.h:439-453 | where a field goes: behind every field that it does not precede |
| `FieldMaps.FieldMap.AddField` | src/C++/FieldMap.h:377-388 | inserts there |
| `FieldMaps.FieldMap.SetField` | src/C++/FieldMap.h:187-205 | overwrites the first field of the tag, or adds one |
| `FieldMaps.FieldMap.RemoveField` | src/C++/FieldMap.cpp:218-226 | with removeGroup of a tag, ends by the shrinking number of fields and group entries |
| `FieldMaps.FieldMap.RemoveGroups` | src/C++/FieldMap.cpp:192-216 | its counterpart |
| `FieldMaps.FieldMap.AddGroup` | src/C++/FieldMap.cpp:113-133 | one more group, and the count field set if wanted |
| `FieldMaps.FieldMap.ReplaceGroup` | src/C++/FieldMap.cpp:135-151 | one group replaced, or nothing for a number out of range |
| `FieldMaps.FieldMap.RemoveGroup` | src/C++/FieldMap.cpp:153-190 | one group less and the count field set; the last one goes with the entry and the count field |
| `FieldMaps.FieldMap.SortFields` | src/C++/FieldMap.h:406-410 | the same fields, sorted; unchanged when they were sorted |
| `FieldMaps.SortIsUnique` | src/C++/FieldMap.h:406-410 | without a repeated tag every sort gives the same vector |
| `FieldMaps.SortKeepsValues` | src/C++/FieldMap.h:406-410 | a tag that is not repeated keeps its value through sorting |
| `FieldMaps.HasNumberIff` | src/C++/FieldMap.cpp:228-228 | hasGroup with a number agrees with getGroupRef if and only if the number is at least 1 |
| `FieldMaps.PlacedKeepsSorted` | src/C++/FieldMap.h:377-388 | a field placed in a sorted vector leaves it sorted |
| `FieldMaps.GroupShape` | src/C++/MessageSorters.h:222-240 | in a vector sorted by a group's order the named fields stand first and in the order's order, the others behind them by number |
| `FieldMaps.DelimiterFirst` | src/C++/MessageSorters.h:222-240 | a group that has a field of the tag that its order names first, and only once, begins with it |
| `FieldMaps.SetIsMapUpdate` | src/C++/FieldMap.h:187-205 | overwriting setField is a map update |
| `FieldMaps.SetValues` | src/C++/FieldMap.h:187-205 | of fields that repeat a tag, setField changes the first one's value only, and adds behind the others when it does not overwrite |
| `FieldMaps.RemoveFieldValues` | src/C++/FieldMap.cpp:218-226 | of fields that repeat a tag, removeField drops the first one, or the first two when the tag has groups, and leaves the later ones in their order |
| `FieldMaps.AddedIsFound` | src/C++/FieldMap.cpp:113-133 | the group that was added is found under the last number, the others under the numbers they had |
| `FieldMaps.ReplacedIsFound` | src/C++/FieldMap.cpp:135-151 | the group that replaces one is found under its number, the others under theirs |
| `FieldMaps.RemovedIsGone` | src/C++/FieldMap.cpp:153-190 | when one group is removed those behind it are found under the number below theirs, those before it as they were |
| `FieldMaps.CountFieldReads` | src/C++/FieldMap.cpp:131-131 | the field that counts n parses to n if and only if n is at most 2^31 - 1, and to n modulo 2^32, as a signed int, in any case |
| `FieldMaps.RemoveFieldEffect` | src/C++/FieldMap.cpp:218-226 | the exact effect of removeField: the groups of the tag and one of its fields, two when there were groups, and no field of another tag |
| `FieldMaps.RemoveGroupsEffect` | src/C++/FieldMap.cpp:192-216 | the exact effect of removeGroup of a tag |
| `FieldMaps.RunKeepsSorted` | src/C++/FieldMap.h:187-205 | the vector is sorted after every run of operations, for each order of tags |
| `FieldMaps.RunKeepsCounted` | src/C++/FieldMap.cpp:113-226 | after every run that writes no count field by hand, a tag has groups if and only if its count field is there, once; and up to 2^31 - 1 groups its value parses to their number |
| `FieldMaps.RunAgrees` | src/C++/FieldMap.cpp:113-226 | after every run with overwriting writes the map agrees, at every tag, with two plain maps of values and groups |
| `FieldTrees.CalculateString` | src/C++/FieldMap.cpp:283-307 | appends the encoding of the tree |
| `FieldTrees.FieldsInOrder` | src/C++/FieldMap.cpp:283-307 | for every tree: its text is, field by field, the text of the field followed by that of the groups under its tag |
| `FieldTrees.GroupsInOrder` | src/C++/FieldMap.cpp:297-305 | groups that stand one behind the other are written one behind the other, each as a tree of its own |
| `FieldTrees.CalculateLength` | src/C++/FieldMap.cpp:309-330 | the length of the fields that are not left out, groups by the default tags |
| `FieldTrees.CalculateTotal` | src/C++/FieldMap.cpp:332-352 | the byte sum of the fields that are not left out |
| `FieldTrees.EncodingByCount` | src/C++/FieldMap.cpp:283-307 | for every tree: the encoding weighs what its own fields weigh, and each entry as often as its tag has fields |
| `FieldTrees.EncodingMeasure` | src/C++/FieldMap.cpp:283-352 | with one count field for each group tag at every level, length and byte sum of the encoding are what is calculated and what is left out, together |
| `FieldTrees.ExactIffWritten` | src/C++/FieldMap.cpp:283-352 | without repeated count fields the calculation never falls short, and is exact if and only if no groups are left unwritten |
| `FieldTrees.ExactIffWrittenOnce` | src/C++/FieldMap.cpp:283-352 | where every group tag has a count field at every level, repeated or not, the calculation never exceeds the encoding, and is exact if and only if no groups of any weight are written more than once |
| `FieldTrees.RepeatedFallsShort` | src/C++/FieldMap.cpp:283-330 | a smallest tree where it falls short |
| `FieldTrees.RunMeasure` | src/C++/FieldMap.cpp:113-352 | every map built by the operations, no count field written by hand, has the calculated length and byte sum |
| `Extractions.FieldExtracts` | src/C++/Message.cpp:653-808 | where a field stands written, extractField returns that field and the place behind it if and only if there is no SOH in the value |
| `Extractions.EncodingExtracts` | src/C++/Message.cpp:294-311 | the text of every tree whose values have no SOH reads back as its fields in the order written: each field, and then the fields of the groups under its tag |
| `Extractions.Reader.ExtractField` | src/C++/Message.cpp:653-808 | the first place from which a tag can be read, its field and where it ends; orphans before it, with no tag, are passed over, and length and byte sum of what is passed over or written otherwise than it was read are booked, so that no byte is lost from the sums |
| `Extractions.Reader.ReadAll` | src/C++/Message.cpp:294-311 | the loop yields all fields of the text, or none when one of them cannot be read; over the whole text, lengths and byte sums of the fields and of what was booked make up those of the text |
| `MessageTexts.Message.ToString` | src/C++/Message.cpp:214-234 | with any three tags: sets body length and checksum in this order, each from the measures with these tags left out, and writes header, body and trailer |
| `MessageTexts.TextIsFramed` | src/C++/Message.cpp:214-234 | the text begins with field 8 and field 9 and ends with field 10; field 9 parses to the number of bytes between, and field 10 has three digits that denote the sum of all bytes before it modulo 256 |
| `MessageTexts.TextReadsBack` | src/C++/Message.cpp:214-311 | when no value has an SOH, reading the text field by field gives all fields of header, body and trailer with their groups, in this order and with the values that toString set |
| `MessageTexts.HeaderShape` | src/C++/MessageSorters.h:40-79 | in a sorted header the begin string and the body length come first |
| `MessageTexts.TrailerShape` | src/C++/MessageSorters.h:82-128 | in a sorted trailer the checksum comes last |
| `StoreFormats.ScanHeaderText` | src/C++/FileStore.cpp:238-247 | the index file is read back entry by entry as it was written |
| `StoreFormats.RecordReads` | src/C++/FileStore.cpp:44-49 | the record of the counters has 43 bytes and is read back, for all 64-bit numbers |
| `StoreFormats.OldRecordReads` | src/C++/FileStore.cpp:265-273 | a record in the older format, of any two numbers, is read back if and only if both are ints |
| `StoreFormats.OldRecordIsShort` | src/C++/FileStore.cpp:44-49 | two ints in the older format have fewer bytes than a record, so that the formats are told apart |
| `StoreFormats.EntryBytes` | src/C++/FileStore.cpp:337-339 | byte by byte: number, offset and size in decimal, two commas between and a blank at the end |
| `StoreFormats.RecordBytes` | src/C++/FileStore.cpp:44-49 | byte by byte: 20 digits, a colon between blanks, 20 digits |
| `StoreFormats.SpaceSkipped` | src/C++/FileStore.cpp:238-247 | blanks, tabs and line ends before a number or a token make no difference |
| `StoreFormats.SessionReads` | src/C++/FileStore.cpp:277-302 | the creation time is read back in whole seconds |
| `StoreFormats.TokenParses` | src/C++/FileStore.cpp:277-302 | the token is cut at 31 bytes, and what the file holds before its first white space is a time if and only if the cut token is, and the same one |
| `FileStores.FileStore.Open` | src/C++/FileStore.cpp:135-227 | replays the files into memory, makes those that are missing and writes the record; fails only on an unreadable session; meanwhile the files go through exactly the stages at which an opening is taken to stop, in this order |
| `FileStores.FileStore.PopulateCache` | src/C++/FileStore.cpp:229-303 | the later of two entries for a number wins; counters and time only from files that hold them |
| `FileStores.FileStore.Set` | src/C++/FileStore.cpp:324-348 | body, index file and index in memory, in this order: the files go through exactly the two stages at which a set is taken to stop |
| `FileStores.FileStore.Get` | src/C++/FileStore.cpp:350-361 | reads number by number, stops at the end or at the wrap-around to 0, fails when a message cannot be read |
| `FileStores.FileStore.GetOne` | src/C++/FileStore.cpp:448-471 | one message, as far as its first NUL |
| `FileStores.FileStore.SetNextSenderMsgSeqNum` | src/C++/FileStore.cpp:367-371 | replaces the record in place |
| `FileStores.FileStore.SetNextTargetMsgSeqNum` | src/C++/FileStore.cpp:373-377 | the same for the other counter |
| `FileStores.FileStore.IncrNextSenderMsgSeqNum` | src/C++/FileStore.cpp:379-383 | wraps around at 64 bits and replaces the record |
| `FileStores.FileStore.IncrNextTargetMsgSeqNum` | src/C++/FileStore.cpp:385-389 | the same for the other counter |
| `FileStores.FileStore.Reset` | src/C++/FileStore.cpp:393-406 | a store that is new but for the time; meanwhile the files go through exactly the ten stages at which a reset is taken to stop, in this order |
| `FileStores.FileStore.Refresh` | src/C++/FileStore.cpp:408-420 | opens the files again |
| `FileStores.CString` | src/C++/FileStore.cpp:467-468 | a message comes back whole if and only if it has no NUL |
| `FileStores.MessageIndexed` | src/C++/FileStore.cpp:324-348 | after a set the index leads to the same messages and the new one, in memory and when replayed |
| `FileStores.BodyGrows` | src/C++/FileStore.cpp:329-339 | a body whose last message never got into the index file does no harm |
| `FileStores.LongRecordFails` | src/C++/FileStore.cpp:257-273 | a record file that is longer than 43 bytes stays so when a record is written into it, and a sender's number of 2^31 or more does not come back from it |
| `FileStores.StepKeeps` | src/C++/FileStore.cpp:324-436 | every call on an open store, every end of its process, every opening and every stop of one does to the store or its files what it does to a map and two counters, and none throws |
| `FileStores.FileStore.Invoke` | src/C++/FileStore.cpp:324-420 | set, the counters, reset and refresh, called on the object, do what the step of the run does |
| `FileStores.RunKeeps` | src/C++/FileStore.cpp:135-436 | so it is over every run from where there are no files, with stops between calls, between the writes of a set, at every place within reset and at every place within an opening, the first included; a reset that stops between its first two removals only when no message is lost |
| `FileStores.ReadFromIs` | src/C++/FileStore.cpp:350-361 | the range from 1 or later holds the messages by ascending number |
| `FileStores.GetAfterRun` | src/C++/FileStore.cpp:350-361 | after every run that leaves the store open get returns, by ascending number, the last message stored under each number since the last reset; from number 0 on it returns nothing |
| `FileStores.OpenedHolds` | src/C++/FileStore.cpp:135-227 | files of which none or some are missing open to a store that holds what they hold; the creation time is new when there was no session file |
| `FileStores.OpenStoppedHolds` | src/C++/FileStore.cpp:166-226 | an opening that stops, after any file it makes or writes, leaves files that hold what they held, and perhaps a session file, empty or written |
| `FileStores.ResetStopHolds` | src/C++/FileStore.cpp:159-226 | a stop within reset, at any of its places, leaves files that hold what is said for that place; at the first of them if and only if all messages are empty |
| `FileStores.StopWithinReset` | src/C++/FileStore.cpp:159-165 | a stop between the removals of body and index leaves counters and index as they were; the store still holds its messages if and only if all are empty, and get of a range from 1 or later fails if and only if a message in the range is not |
| `FileStores.ReadsTheWrongMessage` | src/C++/FileStore.cpp:448-471 | after such a stop a message that is stored and long enough makes get of an old number return a piece of the new message |
| `FileStores.SessionStaysEmpty` | src/C++/FileStore.cpp:277-302 | a session file that was made and not written stays empty at every opening, and the creation time is that of the opening |
| `Forests.ChildrenExchanged` | src/C++/FieldMap.cpp:238-244 | exchanging the children of two unrelated nodes leaves a forest |
| `Forests.SubtreeAttached` | src/C++/FieldMap.cpp:119-127 | putting a root under a node that is not below it leaves a forest |
| `Ownership.AllocatedIsFree` | src/C++/FieldMap.h:52-58 | a slot or block that is allocated is not in use by a live group |
| `Ownership.AllocateKeeps` | src/C++/FieldMap.h:47-58 | an arena has 32 slots, and the heap is used only when all of them were given out since its last reset |
| `Ownership.SwapKeeps` | src/C++/FieldMap.cpp:238-244 | a swap hands groups and arena over together, so that groups in slots stay with their arena |
| `Ownership.LinkKeeps` | src/C++/FieldMap.cpp:119-127 | taking over a group that nothing holds keeps every group held once |
| `Ownership.DropArenaKeeps` | src/C++/FieldMap.h:458-458 | an arena goes only when no group in it is alive |
| `Lifetimes.HeldOnce` | src/C++/FieldMap.h:43-88 | no two pointers are to one group, so live groups are in different slots, each in the arena of the map that holds it and of no other |
| `Lifetimes.OwnSlotsFree` | src/C++/FieldMap.cpp:246-265 | when a map has destroyed its groups its arena holds no live group |
| `Lifetimes.CloneLinked` | src/C++/FieldMap.cpp:45-62 | a clone that is pushed while its copy is made leaves the rest of the memory as it was |
| `Lifetimes.NothingLeft` | src/C++/FieldMap.cpp:80-80 | without field maps there are no arenas and no blocks |
| `GroupMemory.Memory.Free` | src/C++/FieldMap.h:60-68 | a block is freed only while it is in use, when the group in it is dead |
| `GroupMemory.Memory.Deallocate` | src/C++/FieldMap.h:60-74 | storage goes back to where it came from: nothing for a slot of the own arena, the heap for a block |
| `GroupMemory.Memory.ResetArena` | src/C++/FieldMap.h:76-80 | an arena is reset only when no group in it is alive |
| `GroupMemory.Memory.Clear` | src/C++/FieldMap.cpp:246-265 | all that is below the map is destroyed and nothing else, each block is freed, the arena is empty |
| `GroupMemory.Memory.Destroy` | src/C++/FieldMap.cpp:80-80 | the map and all that is below it end, each once, and nothing else |
| `GroupMemory.Memory.CopyConstruct` | src/C++/FieldMap.cpp:39-69 | the copy holds what the source holds, at every depth; it and its groups are new, nothing else changes, and no new block is without a group |
| `GroupMemory.Memory.CloneInto` | src/C++/FieldMap.h:352-365 | the clone is in the next of the arena's 32 slots, or in a heap block once they are used up, and holds what the source holds |
| `GroupMemory.Memory.NewMoved` | src/C++/FieldMap.cpp:71-78 | the new map has what the other had, the other has no fields, groups or arena |
| `GroupMemory.Memory.Assign` | src/C++/FieldMap.cpp:82-87 | copy and swap: the target holds what the source held, even when the source was below the target, and only what was below the target ends |
| `GroupMemory.Memory.MoveAssign` | src/C++/FieldMap.cpp:89-111 | what the target owned ends, what the source owned is handed over, a self-move does nothing; from a source above the target it leaves a cycle, and a source below the target has ended before it is read |
| `GroupMemory.Memory.Swap` | src/C++/FieldMap.cpp:238-244 | each has what the other had; between a map and one below it, the pointers then form a cycle |
| `Cycles.SwapTangles` | src/C++/FieldMap.cpp:238-244 | after a swap of two different maps of which one is below the other some field map holds itself through others; so maps that can be swapped are exactly those that are unrelated |
| `Cycles.MoveTangles` | src/C++/FieldMap.cpp:89-111 | so it does after a move assignment from a map above the target, which then has what the source had |
| `Cycles.CycleFitsNone` | src/C++/FieldMap.cpp:238-244 | no forest fits the pointers once a field map holds itself, whatever its nodes and parents are |
| `Cycles.MoveFromBelowIsDead` | src/C++/FieldMap.cpp:98-107 | a move assignment from a map below the target reads a map that its own clear has destroyed |
| `GroupMemory.Memory.AddGroup` | src/C++/FieldMap.cpp:113-117 | one more pointer, to a new group that holds what the source held before the call, even when a map is added to itself; and the count field |
| `GroupMemory.Memory.AddGroupPtr` | src/C++/FieldMap.cpp:119-127 | one more pointer, to the group handed over, and the count field; nothing for a null pointer |
| `GroupMemory.Memory.ReplaceGroup` | src/C++/FieldMap.cpp:135-151 | the group holds what the source held, and only what was below it has changed |
| `GroupMemory.Memory.RemoveGroup` | src/C++/FieldMap.cpp:153-190 | the num-th group under the tag and all below it end, its storage is given back, and the count field says how many are left or is gone with the last |
| `GroupMemory.Memory.RemoveGroups` | src/C++/FieldMap.cpp:192-216 | all groups under the tag end and a field of the tag goes, the other groups stay in their order |
| `GroupMemory.Memory.RemoveField` | src/C++/FieldMap.cpp:218-226 | a field of the tag goes, with all groups under it |
| `Shapes.ShapesStay` | src/C++/FieldMap.cpp:39-265 | a change outside a closed set of field maps changes nothing that one of the set holds, at any depth |
| `Shapes.CopyDone` | src/C++/FieldMap.cpp:45-62 | a map whose groups are copies, one by one, is a copy |
| `Shapes.ShapeAssigned` | src/C++/FieldMap.cpp:82-87 | after copy, swap and the end of the temporary the target holds what the source held |
| `GroupMemory.Memory.Run` | src/C++/FieldMap.cpp:39-265 | after every run of calls on any number of maps, and the end of those that are left, no group is alive and no arena is left; every field map that was made has ended exactly as often, and every block was taken once and freed once |
| `GroupLists.SameEntries` | src/C++/FieldMap.h:165-165 | groups sorted by tag are determined by the groups of each tag |
| `Readings.SameTree` | src/C++/FieldMap.cpp:39-69 | field maps of the same shape read as the same tree, so a copy reads as its source |
| `Readings.TradedReads` | src/C++/FieldMap.cpp:238-244 | a swap exchanges the trees that are read |
| `Readings.MovedReads` | src/C++/FieldMap.cpp:89-111 | a move assignment gives the target the tree of the source and leaves the source without fields and groups |
| `Readings.SetReads` | src/C++/FieldMap.h:187-205 | setField in memory is setField on the tree that is read |
| `Readings.AddReads` | src/C++/FieldMap.cpp:113-133 | addGroup in memory is addGroup on the tree that is read, with the tree of the group |
| `Readings.ReplacedReads` | src/C++/FieldMap.cpp:135-151 | replaceGroup in memory is replaceGroup on the tree that is read, found or not |
| `Readings.RemovedReads` | src/C++/FieldMap.cpp:153-190 | removeGroup with a number in memory is that on the tree that is read, found or not |
| `Readings.RemoveAllReads` | src/C++/FieldMap.cpp:192-216 | removeGroup of a tag in memory is that on the tree that is read |
| `Readings.RemoveFieldReads` | src/C++/FieldMap.cpp:218-226 | removeField in memory is removeField on the tree that is read |
| `GroupMemory.Memory.Edit` | src/C++/FieldMap.cpp:113-226 | each call that changes a map, wherever its sources are, has its effect in memory, and does to the tree that is read what the operation on values does with the trees of the sources |
| `GroupMemory.Memory.BuildUp` | src/C++/FieldMap.cpp:113-226 | for a new map and a series of calls: the states that the calls met and left, each call on the map having its effect and the others none; the map then reads as the run of the operations that the calls mean, each in the state it met, and its count fields are right when no call writes one by hand |

## Left out

- Integer overflow of accumulated lengths, byte sums, file sizes and the int that holds the
  Julian day: these are unbounded here; `DateTimes.YMDFitsInt` gives the bound for the calendar.
- A count of groups or a body length above 2^31 - 1 is truncated to an int, as in the code:
  `FieldMaps.CountFieldReads` says to what, and the other theorems give the number up to there.
- `Extractions.Reader.ExtractField`: covers extraction without data dictionaries, so neither fields of
  raw data, whose length the field before them gives, nor user-defined ones; what `setString` does
  with the fields it has read, sorting them into header, body, trailer and groups, is left out.
- `count` of a group arena, which only tests call; the overflow that it adds is kept as in the code.
- DoubleConvertor and rounding: prices and averages are real numbers.
- Years outside 0 to 9999 when printing, local time, the current time and the setters of
  single parts of a time.
- The constructor of FieldBase that takes metrics from raw tag text, and the moves of a single
  field, whose effect is that of a copy.
- `appendField` and `reverse_find` of the message parser, and which of several orders of repeated
  tags the library's sort leaves: `FieldMaps.FieldMap.SortFields` sorts by insertion, and
  `FieldMaps.SortIsUnique` says when that makes no difference.
- `MessageTexts.TextIsFramed`: is about the tags 8, 9 and 10 and messages with a begin string; with
  other tags, which `MessageTexts.Message.ToString` covers, a text need not be framed.
- The delimiter and tag that a Group has besides what a field map has, and what order is left in
  a map that was moved from.
- Exceptions from allocation (the cleanup paths of the copy constructor and of cloneInto) and
  the reuse of freed addresses: names of arenas and blocks are never used twice.
- `GroupMemory.Memory.Clear` and `GroupMemory.Memory.RemoveGroups`: take each pointer out of the vector
  before its group is destroyed; the code empties the vector as a whole, before or after, and
  reads it in between only to walk through it.
- The forest in the state of `GroupMemory` records who holds what, and the ledger what began and
  ended; they decide nothing but which calls a program may make (`Allowed`), and which of their
  outcomes a swap or move assignment has.
- `GroupMemory.Memory.Run`: leaves out swaps and move assignments between a map and one below it;
  `GroupMemory.Memory.Swap` and `GroupMemory.Memory.MoveAssign` say what these do.
- `GroupMemory.Memory.MoveAssign`: stops, for a source below the target, where the source would be
  read after its end.
- `GroupMemory.Memory.Edit`: says what is read at the map that is changed; what is read at the maps
  above it follows from `Readings.TreeUnfold`.
- stdio buffering, fdatasync, permissions, path names and writes that stop half way.
- `FileStores.RunKeeps`: leaves out a reset that stops between its first two steps while a message
  is not empty; `FileStores.StopWithinReset` and `FileStores.ReadsTheWrongMessage` say what that leaves.
- Numbers in store files with a sign, and numbers too large for their type, for which scanf's
  behaviour is not defined: in the record these count as none, in the index they are read as they are.
- The order matcher's map from symbols to markets, the building and sending of FIX messages, and
  orders with zero or negative quantity, for which open quantities and averages mean nothing.
- The sessions that stop logs out and on, exceptions from them, and `start`, `block` and `poll`
  running at the same time.
- `AcceptorStop.OwnClaimantNeverFinishes`: takes a thread's join of itself to block; POSIX also
  allows it to fail with an error.
- `AcceptorStop.EveryCallReturns`: leaves out wake-ups without a notification, of which there could be
  any number; safety (`AcceptorStop.StopsOnceAndJoins`) covers them.
- The generator's header and trailer frames and the text of the files that it writes.
- Sockets, TLS, HTTP, logging, data dictionaries and the other message stores.
