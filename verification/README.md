# Verification of the language sandbox

The library lets a program compile and call scripts in an interpreter that runs in a separate process. The parent and
this child talk over two pipes (`language_proxy.c`, with the read loops of `util.c`); the child has put itself under a
system-call filter (`seccomp.c`); registered callbacks are kept in a hash table (`dict.c`); arguments and results are
trees of values (`function.c`). This project models these parts in Dafny 4.11 and proves what a user of the library
relies on.

`dafny verify dfyconfig.toml` checks everything.

## What is proved

**The proxy.** The reference is the direct session of `Session`: a program that uses an interpreter without a sandbox.
The interpreter is any state space with any behaviour: it logs, calls back, and is done with a result, or never. A
callback of the program may answer according to all log lines and callbacks before it. `Pipes` is the real thing, byte
by byte: two processes, each reading and writing one byte at a time over pipes of any capacity, in any interleaving. Two
things lie between them: `Messages`, and the kept session, which is the direct one except that the first definition of
a name stays, as it does in the parent, and that it ends with the first NULL result.

- `DirectUse.ProxyRefinesDirect`: whatever the interleaving, the results, log lines and callbacks that the program has
  seen are those of the direct session so far, and exactly those whenever a call has returned, or has failed because the
  guest or a callback failed. This is so for every session that redefines no name, or only as the function it has
  (`DirectUse.Harmless`). `ProxyTheorems.ProxyRefinesKept` says the same of every session and the kept session.
- `SessionLaws.SessionIsPlayed` and `SessionLaws.PlayedIsSession`: both sessions are, request by request, what the
  interpreter does with the requests: every callback goes to the function that its name has been given, first or last,
  with the guest's arguments and the events before it, and stops the session exactly if there is no such function or
  it returns nothing. `ProxySessions.ProxyCallsFirst` and `ProxySessions.FinishedIsPlayed` say this of runs of the proxy.
- `ProxyTheorems.StaysInSync`: no side ever meets a byte it does not expect, and only one pipe is in use at a time.
- `ProxyTheorems.Progress`, `Termination.ProxyTerminates` and `DirectUse.ProxyEndsLikeDirect`: there is no deadlock on
  pipes of one byte or more, and a session that ends when used directly, within the parent's limits, also ends through
  the proxy, after a number of steps that is computed beforehand.
- `Termination.OverLimitIsGuests` and `Termination.FinishesWithinLimits`: the parent gives up because of its limits only
  if the guest says something over them, and if it does, the session never finishes.
- `SameParent.CallIsLoop` and `SameChild.CommandIsTurn`: the processes of `Pipes` are the loops of the C program, whether
  a call ends well or fails. `ParentSide` and `ChildSide` contain these loops as methods on descriptors, with the time
  budget and `in_call`.
- `Callbacks.TableIsRegistry`: the parent's registry of callbacks, a map in the model, is the hash table as the proxy
  uses it.

**The codec.** `Codec.RoundTrip` says exactly which values a limited reader accepts and that it then returns them and
leaves the following bytes alone. `CodecLaws` has unique decodability and what the limits amount to: the largest total
number of array elements for every depth of nesting. `Descriptor` and `WireIO` contain the reading and writing methods;
how `read` splits the stream makes no difference, and a time-out makes it fail. `WireFormat` states the format in bytes,
the limits in numbers, and what becomes of bytes that no writer sends.

**The hash table.** `Dict` contains the operations on linked chains. Each is proved to do what a function on values
(`DictSpec`) does; `DictLaws` and `DictRuns` prove what these functions mean: lookups change nothing although they
resize and reorder, a table is a map as long as no key is put twice, and all resizing together costs at most four moves
per put and twenty more. `DictOrder` says where entries stand in their chains: new ones and those found in front.

**The hash under it.** `Crc32` and `CrcLaws`: the table form is the shift register; differences within four bytes are
always detected; which blocks collide depends only on their difference. `CrcPolynomial`: the hash is the remainder of
the block times x^32 modulo the generator of section 8 of RFC 1952, and no other number is. `CrcTable` contains the
loops.

**The system-call filter.** `SeccompFilter`: the generated program decides as intended for every list of allowed calls,
by its name and in the kernel's numbers.

**Values in memory.** `GrowingArrays` and `ValueHeap`: how arrays grow and what that costs; a clone shares no block with
its original, equals it exactly if there is no void and no function in it, and destroying it frees its blocks once each.

## Premises

They are not enforced by the C code and appear as preconditions or in the shape of the model.

- The child runs `child_loop`, and the guest can write to the pipe only through its logs, callbacks and results.
- Defining constants and functions and asking `is_function` make the guest neither log nor call back.
- Callbacks do not use the proxy themselves. (`in_call` is only tested after the command has been written.)
- A callback returns values that the child's reader accepts (`Refinement.FnOk`), and so are constants and arguments
  (`Refinement.RequestOk`). Strings contain no NUL and have lengths that fit `int`, which is the type `Base.CString`;
  array lengths fit `int` (`Codec.WellFormed`).
- The two key functions of a table fit together: equality is an equivalence, and equal keys have equal hashes
  (`DictSpec.LawfulType`; `KeyTypes.KeyTypesLawful` shows it of the key types that exist).
- `write` writes everything it is given, as its callers assume. `malloc` succeeds.
- `int`, `float` and pointers have 32 bits, the least significant byte first.
- The counter of array elements, `*count`, does not exceed `int`; in the model it is unbounded. For what the parent reads
  this is so up to 2099202 levels of nesting (`CodecLaws.LimitBoundsTotal`). What the child reads without limits, and
  what is written, has to have no more than `INT_MAX` elements in all.

Where code and comments differ, the code is followed. Some things do not hold that one might expect:

- The limit of 1024 does not bound the number of elements of an accepted value, since an enclosing array is added to the
  count only after its elements have been read (`language_proxy.c:150-158`). It does so exactly for values without nested
  arrays, and 1023 times the depth is the exact bound in general: `CodecLaws.LargestTotal`, `CodecLaws.LimitBoundsTotal`.
- Defining a name again makes a difference to an interpreter used directly, which takes the last definition
  (`language_lua.c:245-247`, `language_py.c:311`), but not through the proxy, where the parent keeps the first one
  (`language_proxy.c:200-205`). The two have the same functions throughout exactly if a name is only redefined as what it
  is: `DirectUse.RegistriesAgree`. `DirectUse.RedefinitionDiverges` is a session with different results.
- An interpreter used directly goes on after a call that returns NULL (`language_lua.c:281-286`). The proxy returns the
  same NULL (`DirectUse.ReproducesDirect`), but keeps `in_call` set, so that every later compile and call fails without
  reading anything (`language_proxy.c:341-349`, `ParentSide.Proxy.CallOutcome`).
- With duplicate keys the entry put last is not always the one found, because resizing reverses the order of entries
  (`dict.c:304-309`). It is found exactly if the table has been resized an even number of times since, the lookup
  included, or if the key has no other entry: `DictRuns.LookupPicks`. `DictRuns.NewestCanLose` gives an example for every
  key type.
- A value tree with a void or a function in it is not copied faithfully (`function.c:101-102`):
  `ValueHeap.CloneIsFaithful`.

## Model

| member | source | states |
|---|---|---|
| Codec.StringRoundTrip | language_proxy.c:47-68 | a written string is read back, with the bytes after it left, or refused if it is not shorter than the limit |
| Codec.RoundTrip | language_proxy.c:70-176 | the reader accepts a written value exactly if each string is below its limit and each array, with the elements of all arrays completed before it, is below the other; it then yields this value, consumes its bytes and no more, and has counted all its elements |
| Codec.RoundTripAll | language_proxy.c:148-158 | the same for the elements of an array, with the counter running through them |
| CodecLaws.Extends | language_proxy.c:100-164 | once a reader has a value or has given up, later bytes change nothing |
| CodecLaws.CutShort | language_proxy.c:100-164 | of an acceptable encoding every proper prefix makes the reader want more |
| CodecLaws.UniqueDecoding | language_proxy.c:70-98 | an encoding followed by anything determines the value and where it ends: no encoding is a proper prefix of another, and write_value is injective on values without functions |
| CodecLaws.UniqueDecodingAll | language_proxy.c:91-95 | a concatenation of encodings splits in one way only |
| CodecLaws.SmallIsAdmitted | language_proxy.c:139-146 | short strings and fewer elements in total than the limit suffice for acceptance |
| CodecLaws.DepthBoundsTotal | language_proxy.c:134-160 | an accepted array and the elements counted before it have together at most its depth of nesting times one less than the limit |
| CodecLaws.NestedIsRead | language_proxy.c:134-160 | arrays of just below the limit are read back at any depth of nesting that the counter can hold, and counted in full |
| CodecLaws.LargestTotal | language_proxy.c:134-160 | the values accepted at a depth of nesting of at most h have at most a given total exactly if this is at least h times one less than the limit |
| CodecLaws.LimitBoundsTotal | language_proxy.c:139-158 | so for the parent's reader the limit bounds the total exactly if no arrays are nested, and the counter fits int exactly up to depth 2099202 |
| WireFormat.IntLayout | language_proxy.c:47-52 | an int goes out as four bytes in two's complement, the lowest first |
| WireFormat.StringLayout | language_proxy.c:47-52 | a string is its length and its characters |
| WireFormat.ValueLayout | language_proxy.c:70-98 | a value is the number of its type in function.h and its content, an array its length and its elements one after the other |
| WireFormat.CommandLayout | language_proxy.c:25-31 | the commands are 1 to 5, each followed by a string and what belongs to it |
| WireFormat.UnitLayout | language_proxy.c:33-38 | the responses are 10 to 13, followed by what belongs to them, and results come without a number |
| WireFormat.StringLimit | language_proxy.c:41-58 | the parent takes a string, in a value, as a log line or as a name, exactly if it has less than 4096 characters; the child takes every string |
| WireFormat.LengthLimit | language_proxy.c:139-146 | the three length tests let an array pass exactly if its length and the elements counted before it are together less than 1024, or less than INT_MAX without limits |
| WireFormat.ElementsAreCounted | language_proxy.c:148-158 | what is counted are the elements of all arrays in the value, at any depth |
| WireFormat.OddBytes | language_proxy.c:100-164 | any byte other than 0 reads as true, unknown types and strings of negative length are refused, and an array of negative length is empty |
| WireFormat.ParentSkipsJunk | language_proxy.c:211-258 | process_callbacks does the same when any bytes that are no response come first |
| WireFormat.ChildSkipsJunk | language_proxy.c:467-470 | child_loop does nothing but skip a byte that is no command |
| Descriptor.ReadWithRetry | util.c:132-150 | for every way in which read() splits the stream or is interrupted, the buffer gets exactly the next bytes, or the call fails; it fails exactly if a read() has failed, and without errors only for want of bytes |
| Descriptor.ReadWithTimeout | util.c:152-193 | the same with select() before each read(): with a timeval no read() is made unless the select() just before it has found the descriptor readable, success means that no select() has timed out or failed, a time-out of the first one that nothing is read, and the time blocked in select() comes out of the time that is left |
| Descriptor.Await | util.c:163-173 | select() is repeated while it is interrupted; what it then says is whether the descriptor is readable, and a time-out uses up all the time |
| Descriptor.ReadOnce | util.c:162-190 | a read() only after a select() that found the descriptor readable; a time-out or an error of select() reads nothing |
| Descriptor.ReadInTime | util.c:161-192 | the outer loop, with the contract of read_with_timeout |
| WireIO.WriteString | language_proxy.c:47-52 | writes the encoding of the string |
| WireIO.WriteValue | language_proxy.c:70-98 | writes the encoding of the value, for every value |
| WireIO.WriteElems | language_proxy.c:92-95 | the element loop writes the encodings one after the other |
| WireIO.ReadBytes | util.c:152-193 | read_with_timeout into a variable: the next bytes or nothing |
| WireIO.ReadString | language_proxy.c:54-68 | yields what decoding the byte stream yields, and leaves the rest of the stream; the time it blocks is within the budget |
| WireIO.ReadValue | language_proxy.c:100-164 | yields what decoding the byte stream yields, leaves the rest, and updates the counter; the result depends on the stream alone, not on how it arrives |
| WireIO.ReadArray | language_proxy.c:134-160 | the array case, with its three length tests |
| WireIO.ReadElems | language_proxy.c:148-157 | the element loop, against the recursive decoder |
| Frames.NamedReads | language_proxy.c:220-228 | a tag, a name and a value are read back exactly within the limits |
| Frames.UnitReads | language_proxy.c:208-259 | whatever the child sends is read back by the reader the parent uses at this point, or refused exactly when it is over the limits |
| Frames.CommandReads | language_proxy.c:389-474 | every command the parent writes is read back by child_loop |
| Frames.UnitExtends | language_proxy.c:208-259 | once the parent's reader has a verdict, later bytes do not change it |
| Frames.CommandExtends | language_proxy.c:397-472 | the same for the child's reader |
| Frames.UnitCutShort | language_proxy.c:208-259 | of an acceptable message from the child every proper prefix makes the parent want more |
| Frames.CommandCutShort | language_proxy.c:397-472 | the same for commands |
| Messages.SimIssue | language_proxy.c:179-206 | sending a command keeps the proxied session in step with the kept one |
| Messages.SimAccept | language_proxy.c:405-466 | when the child takes up a command the kept session begins the request |
| Messages.SimRun | language_proxy.c:376-387 | logging and being done are steps of the kept session at once, a callback only when the parent runs it |
| Messages.SimResume | language_proxy.c:386-387 | the value with which the guest goes on is the one the callback returned |
| Messages.SimHandle | language_proxy.c:208-259 | handling a log line, a callback, a result or an error keeps the sessions in step; only running a callback is a step of the kept session |
| Refinement.UnitExpected | language_proxy.c:208-259 | every message that reaches the parent is one its position expects |
| Refinement.ChildExpects | language_proxy.c:376-400 | commands reach only a child in child_loop, return values only one in proxy_function_call |
| Refinement.ParentHasUnit | language_proxy.c:208-259 | when the parent acts it has read exactly the first message under way, or enough of it to see that it is over the limits |
| Refinement.ParentReadRefines | language_proxy.c:212-228 | a byte the parent reads belongs to the message it is reading |
| Refinement.ParentActRefines | language_proxy.c:208-361 | acting on the bytes read is handling the first message |
| Refinement.ChildReader | language_proxy.c:386-400 | the child's reader has a command or a value exactly when it has read all of it, and then that command or value |
| Refinement.ChildReadRefines | language_proxy.c:386-400 | a byte the child reads belongs to the message it is reading |
| Refinement.ChildActRefines | language_proxy.c:376-474 | acting on the bytes read is taking up the first command or resuming with the value |
| Refinement.StepRefines | language_proxy.c:208-474 | every step of either process, byte by byte, stands for at most one step of the kept session and keeps everything the other lemmas rely on |
| ProxyTheorems.ProxyRefinesKept | language_proxy.c:189-474 | for every interpreter, session, interleaving and capacity there is a point of the kept session whose results, log lines and callbacks (name, arguments and value returned, in order and once each) the proxied one shows: completely whenever a call has returned, or has failed because the guest or a callback did |
| ProxyTheorems.StaysInSync | language_proxy.c:208-474 | in every reachable state no reader meets an unknown tag, a complete message is what the reader's position expects and uses up all bytes read, and not both pipes hold data |
| ProxyTheorems.OneWay | language_proxy.c:208-474 | only one direction is in use, including bytes read but not acted on and bytes still to be written |
| ProxyTheorems.Progress | language_proxy.c:208-474 | no deadlock: with pipes of at least one byte a session that has not failed is finished or has an enabled step other than a time-out |
| Termination.StepTakesOne | language_proxy.c:208-474 | every step that does not fail takes exactly one from the work that is left |
| Termination.RunTakesWork | language_proxy.c:208-474 | beside a kept session that halts within the limits: in every run without time-outs the steps taken and the work left add up to the price of the session, or to no more than it after a failure |
| Termination.HaltsOnce | language_proxy.c:261-361 | a kept session has one end only |
| Termination.OverLimitIsGuests | language_proxy.c:208-259 | in every run the parent fails because of its limits only if some log line, callback or result of the kept session is over them |
| Termination.OverLimitNeverFinishes | language_proxy.c:208-259 | if any act of the kept session is over the limits, no run finishes |
| Termination.FinishesWithinLimits | language_proxy.c:208-474 | of the kept sessions that come to a good end, exactly those within the limits do so through the proxy, under every interleaving |
| Termination.ProxyTerminates | language_proxy.c:261-474 | a kept session that halts, within the parent's limits, takes no more steps through the proxy than its price under any interleaving; when no step is left it has the same results, events and failure, and without failure took exactly that many |
| DirectUse.RegistriesAgree | language_proxy.c:200-205 | the first definitions and the last ones give the same functions after every part of a session exactly if each redefinition gives a name the function it has |
| DirectUse.NoRedefinitionIsHarmless | language_proxy.c:200-205 | so it is if the guard of define_function_proxy never finds a name defined |
| DirectUse.KeptMirrorsDirect | language_proxy.c:200-361 | for such a session the kept session is the direct one, up to and including the first NULL |
| DirectUse.ProxyRefinesDirect | language_proxy.c:189-474 | for every interpreter, interleaving, capacity and such a session there is a point of the direct session whose results, log lines and callbacks the proxied one shows: completely whenever a call has returned or a callback has failed, and with the NULL that both return when the guest has failed |
| DirectUse.ProxyEndsLikeDirect | language_proxy.c:189-474 | for such a session, if the direct session halts within the limits: under any interleaving the proxied one takes no more steps than its price, and when no step is left reproduces the direct session to its end, or to its first NULL |
| DirectUse.RedefinitionDiverges | language_proxy.c:189-206 | a session that defines a name twice and in every complete run returns the first function's value, where the direct session returns the second's |
| SessionLaws.SessionIsPlayed | language_proxy.c:208-474 | at every point of the kept and of the direct session there is a history, in terms of requests and of the interpreter alone, with exactly these results and events: constants and functions are defined, is_function is asked, compile and call run the guest action by action, and a session stops only where a callback fails, or the kept one where a call returns NULL |
| SessionLaws.PlayedIsSession | language_proxy.c:208-474 | conversely both sessions get through every such history, to the same state, results and events |
| SessionLaws.PlayingIsSession | language_proxy.c:208-474 | and to every point of the guest's run in the next request |
| SessionLaws.HostErrorIsFailing | language_proxy.c:229-242 | a callback stops the session exactly if its name has been given no function or that function returns nothing for the guest's arguments and the events before |
| SessionLaws.CallbacksAreAnswered | language_proxy.c:229-243 | each callback in the events went to a function given to its name by then (the first, in the kept session, or the last, in the direct one), with the arguments recorded and exactly the events before it, and returned the value recorded |
| SessionLaws.KeptCallbacksAreAnswered | language_proxy.c:200-243 | in the kept session that is the first function that the whole session gives the name |
| ProxySessions.ProxyCallsFirst | language_proxy.c:200-243 | for every interpreter, session and interleaving the same of all callbacks the parent has made |
| ProxySessions.ProxyIsPlayed | language_proxy.c:189-474 | in every run the program has had a first part of such a history, and all of it whenever the parent is idle or the guest or a callback has failed |
| ProxySessions.FinishedIsPlayed | language_proxy.c:189-474 | a run that finishes has the results and events of a history of all its requests |
| ParentSide.Proxy.DefineConstant | language_proxy.c:179-187 | writes the command, and nothing else |
| ParentSide.Proxy.DefineFunction | language_proxy.c:189-206 | writes the command in any case; the first definition of a name stays |
| ParentSide.StreamGrows | language_proxy.c:208-259 | the events that a stream leads to begin with those before it |
| ParentSide.Proxy.HandleCallback | language_proxy.c:219-247 | calls the function of that name with the arguments read, and its value goes back and is recorded; or fails, exactly if one of these is not to be had (without errors and time-outs), and has then written and recorded nothing |
| ParentSide.Proxy.HandleLog | language_proxy.c:248-252 | passes on the message read, or fails without having passed on anything |
| ParentSide.Proxy.ServeFrame | language_proxy.c:213-257 | one turn of the loop has the effect of one frame of the stream, or none and ends the loop |
| ParentSide.Proxy.ProcessCallbacks | language_proxy.c:208-259 | the loop has the effect that the byte stream determines: reply bytes, events and rest of the stream; it succeeds exactly if RESP_RETURN comes (without errors and time-outs), blocks within its budget, and when cut short has written and done the first part of what the stream determines |
| ParentSide.Proxy.EnterCall | language_proxy.c:273-289 | with in_call set nothing is read; otherwise in_call is set afterwards exactly if process_callbacks failed, and the time-out flag is set exactly if it failed with no time left |
| ParentSide.Proxy.CompileScript | language_proxy.c:261-300 | one time budget for the whole call, and the time-out flag is set exactly if there is no result and the budget is used up; command, replies, events, result and in_call as the stream determines, and a first part of these replies and events after an error or time-out; a failure in process_callbacks makes every later call fail; with a result no read or wait has failed |
| ParentSide.Proxy.CallFunction | language_proxy.c:321-361 | the same for calls, with the value as result |
| ParentSide.Proxy.IsFunction | language_proxy.c:302-319 | writes the command and yields the answer byte, which is then gone, within its own time budget |
| Callbacks.RegistryIsBound | language_proxy.c:189-206 | a name is put into the table only if it is absent, and what is then bound to each name is what the first definition made it |
| Callbacks.TableIsRegistry | language_proxy.c:200-235 | after any definitions and callbacks a lookup of any name in the table finds what the registry of the model has |
| ChildSide.ChildProcess.SandboxLog | language_proxy.c:492-498 | a log line goes out as one message |
| ChildSide.ChildProcess.ProxyFunctionCall | language_proxy.c:376-387 | the callback goes out as one message, the next value of the stream comes back |
| ChildSide.ChildProcess.RunGuest | language_proxy.c:434-467 | the guest's run, with its logs and callbacks, writes and reads what the reference run on the stream does, and ends with the answer for the parent |
| ChildSide.MoreActions | language_proxy.c:434-467 | a guest's run that ends within a number of actions is the same with any larger number allowed |
| ChildSide.ChildProcess.ReadNamed | language_proxy.c:406-409 | reads a name and a value as the stream has them |
| ChildSide.ChildProcess.ReadCommand | language_proxy.c:397-455 | reads the command the stream has, or an unknown one |
| ChildSide.ChildProcess.ServeCommand | language_proxy.c:397-472 | one turn of child_loop has the effect that the stream determines, and leaves a descriptor without errors as such, so that turns can follow each other |
| ChildSide.TurnIgnoresBound | language_proxy.c:397-472 | the same for a turn of child_loop |
| ChildSide.ChildProcess.Answer | language_proxy.c:437-464 | the end of COMPILE_SCRIPT and CALL_FUNCTION: RESP_RETURN and the result, or RESP_ERROR |
| SameParent.ActIsTurn | language_proxy.c:208-259 | when the parent of the step system acts on a frame, that is one turn of process_callbacks |
| SameParent.StepKeepsLoop | language_proxy.c:208-259 | no step of either process changes what process_callbacks will do with the bytes yet to come |
| SameParent.CallIsLoop | language_proxy.c:261-361 | from the command until the parent leaves process_callbacks, by RESP_RETURN or by a failure, in any run: fed with the bytes the parent has read, process_callbacks ends in the same way with the same events, the parent has written the command and then exactly what it writes, and after RESP_RETURN no byte of the result is used |
| SameChild.CommandIsTurn | language_proxy.c:389-474 | in any run: fed with the bytes the child has read for one command, the turn of child_loop writes what the child has written, leaves its interpreter in the same state, and leaves the bytes of the next command |
| SameChild.StepKeepsTurn | language_proxy.c:389-474 | no step of either process changes what the turn does with the bytes yet to come |
| Crc32.ShiftInjective | dict.c:34-41 | clocking the register loses nothing |
| Crc32.ShiftLinear | dict.c:38-38 | clocking the register is linear |
| Crc32.TableStep | dict.c:44-48 | for every register and byte the table form of the update is eight clocked bits of the register with the byte added |
| CrcLaws.CrcSplit | dict.c:60-71 | a block may be hashed in pieces |
| CrcLaws.FeedPacked | dict.c:72-82 | up to four bytes enter the register as if all at once |
| CrcLaws.BurstsAreDetected | dict.c:72-82 | blocks of equal length that differ only within a window of at most four bytes have different hashes, whatever comes before and after |
| CrcLaws.ShortBlocksNeverCollide | dict.c:72-82 | hash_block is injective on blocks of one length up to four bytes |
| CrcLaws.CrcLinear | dict.c:72-82 | the hash of a bytewise difference is the difference of the hashes |
| CrcLaws.CollisionsAreLinear | dict.c:72-82 | whether two blocks of equal length collide depends only on their difference |
| CrcLaws.LeadingZerosInvisible | dict.c:72-82 | leading zero bytes do not change the hash, since the register starts at zero |
| CrcPolynomial.PolynomialIsGenerator | dict.c:38-38 | the constant lists the coefficients, after the leading one, of x^32 + x^26 + x^23 + x^22 + x^16 + x^12 + x^11 + x^10 + x^8 + x^7 + x^5 + x^4 + x^2 + x + 1 |
| CrcPolynomial.HashIsRemainder | dict.c:34-82 | the block times x^32 is a multiple of that polynomial plus the hash |
| CrcPolynomial.RemainderIsUnique | dict.c:34-82 | no other 32-bit number, and no other quotient, will do |
| CrcPolynomial.HashOfOne | dict.c:72-82 | the hash of the byte 0x80 is 0xedb88320 |
| CrcTable.Table.Init | dict.c:28-42 | fills the table with the clocked bytes; a second call does nothing |
| CrcTable.Table.ClockEightTimes | dict.c:35-40 | the inner loop yields the entry of its byte |
| CrcTable.Table.Update | dict.c:47-47 | one table update is one byte into the shift register |
| CrcTable.Table.AddByte | dict.c:44-48 | the byte is added to the block hashed so far |
| CrcTable.Table.AddString | dict.c:49-59 | the characters before the NUL are added; NULL adds nothing |
| CrcTable.Table.AddBytes | dict.c:60-71 | the bytes are added; NULL or length 0 add nothing |
| CrcTable.Table.HashBlock | dict.c:72-82 | the hash of the block as the shift register defines it, which is a remainder by CrcPolynomial.HashIsRemainder |
| CrcTable.PiecesAgree | dict.c:44-82 | adding a block byte by byte or in any two pieces, or hashing it at once, is the same |
| KeyTypes.KeyTypesLawful | dict.c:86-165 | the key types meet what the table relies on, and two keys are equal exactly if they are the same string or pointer |
| KeyTypes.PointersNeverCollide | dict.c:86-110 | different pointers or integers have different hashes |
| KeyTypes.PointersAreHashed | dict.c:90-110 | the hash of a pointer or integer is that of its four bytes, the lowest first |
| KeyTypes.CharsAreHashed | dict.c:126-132 | the hash of NULL is 0, that of a string the remainder that its characters have |
| KeyTypes.NearStringsNeverCollide | dict.c:120-132 | strings of one length that differ only within four consecutive characters have different hashes |
| KeyTypes.OlderIntegerFound | dict.c:301-318 | an instance of DictRuns.NewestCanLose with integer keys |
| SeccompFilter.Relocate | seccomp.c:258-282 | code behind other code runs as if alone |
| SeccompFilter.BlockRuns | seccomp.c:263-266 | one ALLOW_ANYARGS block decides its own call and passes on every other |
| SeccompFilter.FilterDecides | seccomp.c:258-282 | for every list of calls and every system call the program halts in bounds: KILL exactly on another architecture, else ALLOW exactly for listed calls, else ERRNO with 1 |
| SeccompFilter.FilterAnswers | seccomp.c:258-282 | in the kernel's numbers: 0x7fff0000 exactly for listed calls on architecture 0x40000003, 0 exactly on every other architecture, and else 5 in the upper sixteen bits and 1 in the lower |
| SeccompFilter.FilterText | seccomp.c:258-282 | every instruction of the program in numbers |
| SeccompFilter.FilterInstallable | seccomp.c:258-286 | for every list all instructions, loads and jumps are valid, the last instruction returns, and the length is 4 + 3n; so the kernel, which takes 4096 instructions, accepts the filter exactly if at most 1364 calls are listed |
| SeccompFilter.ValidHalts | seccomp.c:258-286 | any such program halts with a verdict wherever it is entered |
| DictLaws.RehashAt | dict.c:219-239 | after resizing every chain has the entries of its slot, in the reverse of their former order |
| DictLaws.RehashLaw | dict.c:219-239 | resizing keeps contents, count and the placement of every entry, and exactly reverses the order of the entries of each key |
| DictLaws.PutLaw | dict.c:241-258 | put adds one entry, in front of the others for its key, and touches no other key |
| DictLaws.MoveToFrontKeepsOrder | dict.c:322-329 | bringing a hit to the front keeps the order among the entries of every key |
| DictLaws.LookupLaw | dict.c:284-334 | lookup never changes contents or count, although it resizes and reorders; it finds an entry exactly if the key has one; orders are kept without resizing and reversed with it |
| DictLaws.DeleteLaw | dict.c:354-408 | a deletion removes exactly the first matching entry of the key, or nothing, and says which; the order of the others stays |
| DictLaws.InitLaw | dict.c:175-196 | a new table is empty |
| DictOrder.BindingsAreEntries | dict.c:284-334 | the entries of a key are exactly those of the table with an equal key, as often as they occur |
| DictOrder.PutGoesFirst | dict.c:241-258 | a new entry stands before all others of its chain, nothing else is moved, and the next lookup of its key finds it and changes nothing |
| DictOrder.FirstIsFound | dict.c:292-299 | an entry at the front is found without any change |
| DictOrder.LookupGrows | dict.c:292-310 | a lookup enlarges the table exactly if it has to go past the first entry of the chain and the table is two thirds full, and then it is no longer |
| DictOrder.MovedWhenResized | dict.c:219-239 | what is counted as moved by an operation are all entries, exactly if the table gets larger |
| DictOrder.HitComesFirst | dict.c:311-330 | the entry found stands at the front of its chain, before the others in their former order, every other chain is as it was (in the resized table, if it is resized), and a further lookup of the key finds the entry there and changes nothing |
| DictOrder.MissLeavesChains | dict.c:320-334 | a lookup that finds nothing moves nothing within its chain |
| DictOrder.DeletedInPlace | dict.c:354-408 | the first entry that passes the test is taken out of its chain, and nothing else is moved |
| DictOrder.DelTakesFirst | dict.c:354-380 | dict_del takes out the first entry of the key, or there is none |
| DictOrder.Del2TakesMatch | dict.c:382-408 | dict_del2 takes out the first entry of the key with these data, or there is none |
| DictOrder.GrownSizeIsLeast | dict.c:304-309 | the new size is 15 or twice the size and one more, doubled again in the same way no oftener than the entries call for |
| DictRuns.RunKeepsOk | dict.c:241-408 | in every run of put, lookup, del and del2 each entry stays in the slot of its hash and num is the number of entries |
| DictRuns.RunStores | dict.c:241-408 | in every run that puts only absent keys each key has at most one entry, with the data a map would have |
| DictRuns.MapLookup | dict.c:284-352 | in such a run a lookup finds exactly what the map has |
| DictRuns.RunTurns | dict.c:241-408 | operations that neither put nor delete a key keep its entries; each resizing among them reverses their order |
| DictRuns.LookupPicks | dict.c:241-341 | after a put of a key and any operations that neither put nor delete it, a lookup finds this newest entry if the table has been resized an even number of times since, itself included, or the key has no other entry, and otherwise the one at the other end of its entries; it finds the newest exactly then, unless another entry is equal to it |
| DictRuns.NewestCanLose | dict.c:241-341 | for every key type: three puts into a new table after which a lookup finds the older of two entries, with resizing, and so does the next one, without |
| DictRuns.GrownSizeLaw | dict.c:304-309 | the size loop ends with a larger size, less than two thirds full and not beyond what the entries need, of the form 1 or 2^k - 1 with k >= 4 if the old size was; int suffices up to 357913940 entries |
| DictRuns.RehashingIsAmortised | dict.c:219-310 | in every run from dict_new all resizing together moves at most 4 entries per put and 20 more, and the size is 1 or 2^k - 1 with k >= 4 |
| DictRuns.CloneLaw | dict.c:198-217 | a clone has the same entries in the same slots, every chain reversed entry by entry; cloning twice restores the order |
| Dict.PushEntry | dict.c:228-230 | links an entry in at the front of the chain of its hash, all other chains unchanged |
| Dict.MoveChain | dict.c:225-232 | the inner loop of dict_expand pushes the entries of one chain, in order, on their new ones |
| Dict.MoveAll | dict.c:223-233 | the loops of dict_expand |
| Dict.CloneChain | dict.c:205-214 | the inner loop of dict_clone: new entries, in reverse order |
| Dict.CloneAll | dict.c:203-215 | the loops of dict_clone |
| Dict.Dict.constructor | dict.c:189-196 | an empty table of the given size |
| Dict.Dict.Expand | dict.c:219-239 | relinks the same entries as the function on values says |
| Dict.Dict.Put | dict.c:241-258 | links one new entry in, as the function on values says |
| Dict.Dict.BringToFront | dict.c:324-328 | relinks one entry to the front of its chain, all other chains unchanged |
| Dict.Dict.CheckFirst | dict.c:293-304 | the test of the first entry, and whether the table has to grow |
| Dict.Dict.NewSize | dict.c:305-308 | the size loop computes the grown size, which is larger |
| Dict.Dict.SearchRest | dict.c:320-333 | the loop over the further entries finds the first match and brings it to the front, as the function on values does, of which DictOrder.HitComesFirst says where the entry then stands |
| Dict.Dict.DoLookup | dict.c:284-334 | table and result are those of the function on values; no entry is added or lost |
| Dict.Dict.Lookup | dict.c:335-341 | yields the data of the entry found |
| Dict.Dict.Contains | dict.c:348-352 | says whether there is an entry |
| Dict.Dict.Unlink | dict.c:363-373 | takes one entry out of its chain, all other chains unchanged |
| Dict.Dict.DeleteFirst | dict.c:356-379 | the loop shared by both deletions takes out the first entry that passes the test |
| Dict.Dict.Del | dict.c:354-380 | deletes the first entry of the key |
| Dict.Dict.Del2 | dict.c:382-408 | deletes the first entry with this key and data |
| Dict.Dict.Clone | dict.c:198-217 | a table with entries of its own, as the function on values says; the original is unchanged |
| GrowingArrays.AppendsLaw | function.c:494-509 | after n appends the capacity is 0 or 2^k - 1 with k >= 3 and suffices, and for n > 0 fewer than 2n pointers have been moved |
| GrowingArrays.MovedExactly | function.c:494-509 | the number of pointers moved is 2^k - k - 5 for a capacity of 2^k - 1 |
| ValueHeap.CloneIsFaithful | function.c:98-126 | a clone equals its original exactly if there is no void and no function in that, and exactly then it contains no null pointer |
| ValueHeap.CloneByPlaces | function.c:98-126 | at every place a clone has an array of the same length where its original has an array, null where that has a void or a function, and else the same value |
| ValueHeap.ItemAppended | function.c:508-508 | an element in blocks of its own keeps the tree well-formed and its blocks disjoint |
| ValueHeap.NewPlain | function.c:574-616 | a value in new blocks |
| ValueHeap.NewCFunction | function.c:632-649 | a function value with its record and copies of both type strings, in new blocks |
| ValueHeap.ArrayNew | function.c:618-630 | an empty array in new blocks |
| ValueHeap.MakeRoom | function.c:498-507 | grows the block when it is full, keeps the pointers and frees the old block |
| ValueHeap.ArrayAppend | function.c:494-509 | the array has one more element, the others stay; the value's blocks become its own; allocated blocks and moved pointers are accounted for |
| ValueHeap.ValueClone | function.c:98-126 | a copy in new blocks only, or NULL for a void or a function; exactly its blocks are newly allocated |
| ValueHeap.ValueDestroy | function.c:532-572 | frees exactly the blocks of the value, none of them twice: strings, arrays with all they contain, and the records of functions |
| ValueHeap.CloneAndDestroy | function.c:98-126 | a copy made and destroyed leaves allocated exactly what was allocated before, and the original as it was |

## Left out

- The language bindings (`language_js.c`, `language_py.c`, `language_rb.c`, `language_lua.c`): the interpreters they wrap are not part of the repository; the guest is any interpreter.
- Process creation and termination, closing descriptors, signals, `prctl`, and the inline assembly in `seccomp.c`.
- `cfunction_call` and the libffi helpers: a callback is a function from the events so far and the arguments to a value or none.
- The meaning of floats: they are four bytes.
- Protocol behaviour after a failure, beyond the effect of `in_call`, and under re-entrant calls: the streams are no longer aligned there. In `Pipes` nothing happens after a failure.
- Short or failing writes: the code ignores the result of `write`.
- Negative array lengths: no writer produces them. The decoder reads them as an empty array (`WireFormat.OddBytes`) and subtracts them from a counter that is not bounded below.
- The log line as a format string and the buffer of `language_log`: a log line is passed on as it is.
- What the parent says in its own error messages through `language_error`.
- Dumping, iterating over, clearing and freeing tables, `dict_put_int` and `dict_lookup_int`: they hold nothing beyond the operations that are modelled, and a cleared table has no key type any more.
- Overflow of `num*3` and of `*count`: counts are unbounded, and `DictRuns.GrownSizeLaw` and `CodecLaws.LimitBoundsTotal` say up to where `int` suffices.
- Codec.RoundTrip: the counter is unbounded where the code has an `int`, as said under the premises.
- Files, paths, settings, specs and the test driver.
- Descriptor.ReadWithTimeout: its loops (`ReadInTime`, `ReadOnce`, `Await`) are methods of their own, where the code has one body; `WireIO.ReadBytes` stands for its use on a local variable.
- ParentSide.Proxy.HandleLog: a log message that is over the limit or cut off makes it fail; the code passes NULL to `language_log` as the format (`language_proxy.c:249-250`, `language.h:49`), for which C defines no behaviour.
- ParentSide.Proxy.ServeFrame: the same.
- ParentSide.Proxy.CompileScript: after a failure it is not stated how many bytes had been read, and after an error or time-out not how many of the replies had been written.
- ParentSide.Proxy.CallFunction: the same.
- ParentSide.Proxy.ProcessCallbacks: the same.
- ChildSide.ChildProcess.RunGuest: the number of actions of the guest is bounded by a parameter, because a guest may run for ever; the bound makes no difference to a run that ends within it (`ChildSide.MoreActions`), and for a run of the step system its own number of actions will do (`SameChild.CommandIsTurn`).
- ChildSide.ChildProcess.ServeCommand: the same; a command that cannot be read ends the child, where the code goes on with NULL for what is missing.
- DirectUse.ProxyRefinesDirect: what an interpreter used directly does when a callback returns NULL is its own affair; the direct session ends there. A callback is known by its name, also to a guest that has stored it under another. It does not see the results of earlier requests, only log lines and callbacks. A time-out may happen at any read; how much time passes is the subject of `ParentSide`, not of the step system.
- Refinement.StepRefines: the result of `compile_script` is whether the guest is done with some value.
- Dict.Dict.Put: keys are values, so copying and freeing them (`dup`, `free`) has nothing to do, and clearing a deleted entry with `memset` is not visible.
- Dict.Dict.DoLookup: its parts (`CheckFirst`, `Grow`, `NewSize`, `SearchRest`, `BringToFront`) are methods of their own, where the code has one body; so are those of the deletions and of `dict_expand` and `dict_clone`.
- CrcTable.Table.AddBytes: a negative length, for which the loop of the code would not end in bounds.
- SeccompFilter.FilterText: the numbers of the verdicts are those of `seccomp_defs.h`; those of the instructions and of the architecture, the numbers of the calls that are allowed, and the kernel's limit come from the system's headers, which are not part of this model; the allow-list is arbitrary.
- ValueHeap.ValueClone: null pointers inside the original, on which the code fails, are excluded.
- ValueHeap.ValueDestroy: null pointers inside the value, on which the code fails, are excluded; the functions that the child makes for callbacks (`proxy_function_destroy`) are not modelled.
