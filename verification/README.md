# TaiShell: a verified model of its algorithms and shared structures

TaiShell is a plugin manager for the PS Vita, written in C. This project models, in Dafny, the
parts of it that are algorithms or state rather than platform calls, and proves what they do:

- **CRC-32** (`Gf2.dfy`, `Crc32Table.dfy`, `Crc32.dfy`), which computes every plugin's id. The
  table-driven loop is proved to be bit-serial division over GF(2), and its error detection,
  chaining and affinity follow from the algebra. The standard is section 8 of RFC 1952.
- **The FTP server's scanner** (`ScanSpec.dfy`, `Sscanf.dfy`, `ScanProps.dfy`, `ScanFormats.dfy`). `ScanSpec` says
  declaratively what each conversion does to the cursor, the count and the arguments; `Sscanf` is
  the C code, with its push-back and its integer state machine, proved to do that. `ScanProps` and
  `ScanFormats` say what each conversion, each printed specification and other text mean, and
  `FtpCommands.dfy`, `FtpFile.dfy` and `FtpPort.dfy` what every scan of the server stores. It is a model of this code, not of section
  7.21.6.2 of ISO/IEC 9899:2011: suppressed `%*s`, `%*c` and `%*[` are counted, `%s` does not skip
  white space, and `%zu` and `%tu` match no case of the store and end the scan.
- **The working directory** (`FtpPath.dfy`, `FtpStack.dfy`): string editing in a fixed buffer,
  proved to be a stack of path components (section 4.1.1 of RFC 959), and the file names given
  relative to it (`FtpFile.dfy`).
- **The client list** (`FtpClients.dfy`, `FtpProtocol.dfy`): the intrusive list that the server
  thread, the client threads and shutdown share, as an interleaved transition system. Safety is
  proved over every run but for one kind of read, named below, whose exact condition is proved. So
  is the condition under which shutdown can still finish.
- **The keyed list** (`TshList.dfy`) as heap nodes with links, and **the instance store**
  (`Instances.dfy`), a list of such lists on the heap.
- **The registry file** (`Registry.dfy`), byte by byte with a seek position, and **the plugin
  state** (`PluginState.dfy`) that must agree with it over any run of toggles and restarts.
- **Pixel blending** (`Blit.dfy`) and **the menu cursor** (`Menu.dfy`).

Where the source changes state in place, the model is a class or an array method, proved against
a specification function; the theorems are about those functions. Inputs from the platform (does
an allocation, a load or a directory lookup succeed, what does uninitialised memory hold) are
parameters and may be anything. `dafny verify dfyconfig.toml` checks the project.

Six results say where the code falls short, and exactly when.

- `init_plugins` compares only eight characters of a registry key, so a longer record can answer
  for a plugin with an eight-digit id: `PluginRuns.StateSurvivesRestartIff` proves that a state set
  for a plugin survives a restart if and only if no such record precedes the plugin's own.
  `PluginRuns.CapturedFromOutside` proves that the program never writes such a record itself: it
  can only have come into the file from outside.
- `client_list_thread_end` reads a client's data connection after it has aborted the client's
  control socket, and by then the client, which ends without the mutex, may have freed itself:
  `FtpProtocol.NoUseAfterFree` proves that a step of a run touches freed memory if and only if it
  is such a read and the client's free has happened. `FtpProtocol.ShutdownReadsFreed` is a run in
  which it has.
- The same function holds the mutex while it joins: `FtpProtocol.ShutdownCanFinishIff` proves
  that once shutdown has the mutex it can still finish if and only if no client is waiting for the
  mutex to delete itself from the list. `FtpProtocol.ShutdownCanHang` is a run in which one is.
- `registry_set` leaves the last byte of a new key as it finds it: `RegistryReads.SetReadsBackIff`
  proves for every key that it reads back if and only if it was there before, is shorter than 31
  characters, or finds the byte that belongs there. `RegistryReads.LongKeyLost` gives the failing
  inputs. The only caller (src/plugins.c:373-375) passes keys of at most eight digits, which do.
- The results of the scans are not looked at: a line that starts with white space is dispatched as
  the command of the line before (`FtpCommands.ReadCommand`), TYPE without a type character is
  answered by what an uninitialised variable holds (`FtpCommands.CmdType`), and a missing file name
  is what an uninitialised buffer holds (`FtpFile.GenFilepath`).
- `snprintf` cuts a path that is too long for its buffer: `FtpStack.StepRefinesIff` says exactly when
  the working directory is still the one that was named, and when the session ends up elsewhere.

## Model

| member | source | states |
|---|---|---|
| `Crc32Table.TableIsEightSteps` | tools/crc32.c:46-90 | Every one of the 256 table entries is the result of eight shift/xor steps on its index |
| `Crc32Register.StepIsTimesX` | tools/crc32.c:6-44 | One register step multiplies the register's polynomial by x and reduces it by the generator |
| `Crc32Register.StepInverse` | tools/crc32.c:92-104 | A register step has an inverse, from both sides |
| `Crc32Register.RunBitsInjective` | tools/crc32.c:92-104 | Two registers that end equal after the same input were equal |
| `Crc32Register.Division` | tools/crc32.c:92-104 | Input times x^32 plus the shifted seed is a multiple of the generator plus what the register holds |
| `Crc32.TableStepIsEightBits` | tools/crc32.c:101 | For every 32-bit register and byte, one pass through the table feeds exactly the byte's eight bits to the bit-serial register |
| `Crc32.Crc32` | tools/crc32.c:92-104 | The loop returns the bit-serial checksum of the first `size` bytes, for every seed |
| `Crc32.ComplementAddsOnes` | tools/crc32.c:98-103 | The inversion adds 1 to all 32 coefficients |
| `Crc32.ChecksumIsRemainder` | tools/crc32.c:6-104 | The bit-reflected CRC with all coefficients inverted is the remainder of M(x)·x^32 + (seed(x) + x^31 + … + 1)·x^(8n) by the generator, for every seed and message |
| `Crc32.ChecksumIsTheRemainder` | tools/crc32.c:6-104 | A polynomial is a remainder of that dividend if and only if it is that one: the remainder determines the CRC |
| `Crc32.CheckValue` | tools/crc32.c:92-104 | The digits 1 to 9 with seed 0 give 0xCBF43926 |
| `Crc32.SeedsStayApart` | tools/crc32.c:92-104 | Different seeds never give one message the same CRC |
| `Crc32Register.BitStepIsDivision` | tools/crc32.c:92-104 | Feeding a bit is one step of polynomial long division |
| `Crc32.CollideIff` | tools/crc32.c:92-104 | Two messages of one length have the same CRC if and only if the generator divides the difference of their polynomials, for every seed |
| `Crc32.BurstDetected` | tools/crc32.c:92-104 | So two different messages of one length whose bits differ only inside 32 consecutive bits have different CRCs, at every position and length |
| `Crc32.FourByteBurstDetected` | tools/crc32.c:92-104 | In particular when they differ only inside four consecutive bytes |
| `Crc32.ChecksumChains` | tools/crc32.c:92-104 | crc32(crc32(c, a), b) = crc32(c, a + b) |
| `Crc32.ChecksumAffine` | tools/crc32.c:92-104 | The xor of the CRCs of three messages of one length is the CRC of their bytewise xor |
| `Scanset.InScanset` | src/plugins/ftpd/libftpvita/sscanf.c:95-121 | The loop terminates and accepts a character exactly if some literal of the scanlist or some range around a '-' operator admits it |
| `ScanFormats.SetOfItems` | src/plugins/ftpd/libftpvita/sscanf.c:95-121 | A scanlist written from characters and ranges admits exactly what one of them admits; the ends of a range belong to it even the wrong way round |
| `ScanFormats.DashAtEnd` | src/plugins/ftpd/libftpvita/sscanf.c:102-105 | A '-' at the end of the list stands for itself |
| `Sscanf.Status.Get` | src/plugins/ftpd/libftpvita/sscanf.c:75-83 | Reads one character and counts it; at the terminator it gives EOF and moves nothing |
| `Sscanf.Status.Unget` | src/plugins/ftpd/libftpvita/sscanf.c:88-92 | Undoes exactly what a successful read did, keeping cursor = start + i |
| `Sscanf.Status.ReadInteger` | src/plugins/ftpd/libftpvita/sscanf.c:410-491 | The sign, prefix and digit phases terminate, stop where the specification says, and hold its value modulo 2^64 |
| `Sscanf.Status.ReadPrefix` | src/plugins/ftpd/libftpvita/sscanf.c:441-478 | The prefix phase resolves the base and leaves the digits the specification expects |
| `Sscanf.Status.ReadRun` | src/plugins/ftpd/libftpvita/sscanf.c:275-337 | Reads the longest run of the class within width and input |
| `Sscanf.Status.ReadSet` | src/plugins/ftpd/libftpvita/sscanf.c:359-376 | Reads the longest run that the scanlist, or its complement, admits |
| `Sscanf.Status.PerformCharacter` | src/plugins/ftpd/libftpvita/sscanf.c:265-292 | %c: cursor, count and stored characters are those of the specification, with success or input error |
| `Sscanf.Status.PerformWord` | src/plugins/ftpd/libftpvita/sscanf.c:293-337 | %s: the same, with a matching error on leading white space |
| `Sscanf.Status.PerformSet` | src/plugins/ftpd/libftpvita/sscanf.c:338-390 | %[: the same, with EOF at the end of input even after earlier conversions |
| `Sscanf.Status.PerformInteger` | src/plugins/ftpd/libftpvita/sscanf.c:410-568 | Integer conversions: the same, with the value cut to the target's size and no count when suppressed |
| `Sscanf.Status.Scan` | src/plugins/ftpd/libftpvita/sscanf.c:123-571 | Parses one specification and performs it as specified; says where the format goes on, or that scanning stops |
| `Sscanf.Vsscanf` | src/plugins/ftpd/libftpvita/sscanf.c:573-630 | On every well-formed format the interpreter terminates, never passes the terminator, and returns and stores what the specification says |
| `ScanFormats.SpecReadsBack` | src/plugins/ftpd/libftpvita/sscanf.c:152-259 | A printed specification, with or without `*`, of any width, length modifier and letter, is parsed as the conversion it names, with the target size of that C type |
| `ScanFormats.WordMeaning` | src/plugins/ftpd/libftpvita/sscanf.c:293-337 | %s of any width, suppressed or not, takes and stores the longest run without white space; without one it fails, with an input error if there was nothing to read |
| `ScanFormats.SetMeaning` | src/plugins/ftpd/libftpvita/sscanf.c:338-390 | %[ and %[^ the same for the characters in or outside the list, with EOF whatever was counted |
| `ScanFormats.CharacterMeaning` | src/plugins/ftpd/libftpvita/sscanf.c:265-292 | %c takes as many characters as its width says, or what there is, and stores them without a terminator |
| `ScanFormats.IntegerFails` | src/plugins/ftpd/libftpvita/sscanf.c:493-562 | A failing integer conversion stores nothing; where it stops, and that it is an input error if and only if the input ran out |
| `ScanFormats.TextMatches` | src/plugins/ftpd/libftpvita/sscanf.c:589-617 | Other text in a format, %% included, is matched character by character: the scan goes on behind all of it or stops at the first character that differs, with EOF for an early end of input |
| `ScanFormats.CountsText` | src/plugins/ftpd/libftpvita/sscanf.c:398-403 | %n stores the number of characters read and is not counted |
| `ScanFormats.DigitsByTable` | src/plugins/ftpd/libftpvita/sscanf.c:54-54 | A digit's value is the place of its lower case in the table of digits, there are no others, and the x of 0x may be of either case |
| `ScanFormats.InBaseValue` | src/plugins/ftpd/libftpvita/sscanf.c:479-489 | A number printed in base 8, 10 or 16 has digits of that base and that value |
| `ScanProps.IntegerItemIff` | src/plugins/ftpd/libftpvita/sscanf.c:410-491 | The conversion reads a number if and only if that number stands there: white space, one optional sign, the base prefix that applies at this base, width and input, and the longest run of digits of the resolved base that the width allows |
| `ScanProps.IntegerItemUnique` | src/plugins/ftpd/libftpvita/sscanf.c:410-491 | No place has two such readings: base, value and cursor are determined |
| `ScanProps.IntegerItem` | src/plugins/ftpd/libftpvita/sscanf.c:410-491 | What is accepted is such an item, at the first character that is no white space |
| `ScanProps.IntegerConversion` | src/plugins/ftpd/libftpvita/sscanf.c:410-568 | %d, %i, %o, %u and %x of any width succeed if and only if such an item stands there and, unless suppressed, there is a target; they store sign times value modulo the target size and leave the cursor just past it |
| `ScanProps.DecimalReadsBack` | src/plugins/ftpd/libftpvita/sscanf.c:410-568 | A printed decimal of any int, not followed by a digit, is read back as that int |
| `ScanProps.RunNumbers` | src/plugins/ftpd/libftpvita/sscanf.c:573-630 | A comma-separated list of printed ints is read back by the %d format of the same shape |
| `ScanProps.ArgumentScan` | src/plugins/ftpd/libftpvita/ftpvita.c:445-448 | The scan of any line returns 2 and stores the argument exactly when there is one; otherwise it returns -1, or 0 for a line that starts with white space other than a line feed, so `n < 1` is exactly "no argument" |
| `FtpCommands.WordScan` | src/plugins/ftpd/libftpvita/ftpvita.c:921 | The scan of any line for its command stores exactly the longest prefix without white space and returns 1; without one it stores nothing and returns -1, or 0 for white space other than a line feed |
| `FtpCommands.ReadCommand` | src/plugins/ftpd/libftpvita/ftpvita.c:903-921 | The command that is dispatched: the first word of the line, and without one the command of the line before |
| `FtpCommands.TypeScan` | src/plugins/ftpd/libftpvita/ftpvita.c:492 | TYPE stores the character after the first word and its white space, and the word after that, and counts 1, 2 or 3 conversions |
| `FtpCommands.NoTypeScan` | src/plugins/ftpd/libftpvita/ftpvita.c:492 | A line without a first word stores nothing and returns -1 or 0 |
| `FtpCommands.CmdType` | src/plugins/ftpd/libftpvita/ftpvita.c:486-509 | The reply on every line: 200 for A and I, else 504; without a type character what the uninitialised variable holds decides |
| `FtpCommands.RestScan` | src/plugins/ftpd/libftpvita/ftpvita.c:748 | REST stores the number that stands after the first blank, modulo 2^32, and nothing when there is none |
| `FtpPort.CmdPort` | src/plugins/ftpd/libftpvita/ftpvita.c:216-263 | On every line PORT computes the endpoint from what the scan stores, and from what its uninitialised variables hold where the scan stops early or inet_pton refuses |
| `FtpPort.PrintsQuad` | src/plugins/ftpd/libftpvita/ftpvita.c:231-233 | Four bytes are printed as their dotted quad, uncut |
| `FtpPort.PrintsNumbers` | src/plugins/ftpd/libftpvita/ftpvita.c:231-233 | Any four numbers are printed as signed ints with dots between, cut at fifteen characters |
| `FtpPort.PortRecoversPasv` | src/plugins/ftpd/libftpvita/ftpvita.c:201-229 | The six numbers of any endpoint, after any command word and gap, are turned by PORT into the same sin_port, and the same address if inet_pton reads its dotted quad, whatever the stack held |
| `FtpPort.ReplyComesBack` | src/plugins/ftpd/libftpvita/ftpvita.c:201-229 | The text between the brackets of the 227 reply, sent back in a PORT line, does that |
| `FtpPath.DirUp` | src/plugins/ftpd/libftpvita/ftpvita.c:419-437 | The in-place edit leaves the buffer holding the parent of the string it held |
| `FtpPath.FindLastSlash` | src/plugins/ftpd/libftpvita/ftpvita.c:414-437 | strrchr finds the last slash, or none |
| `FtpPath.ParentWellShaped` | src/plugins/ftpd/libftpvita/ftpvita.c:419-437 | dir_up keeps the path "/" or with a second slash |
| `FtpPath.ChangedWellShaped` | src/plugins/ftpd/libftpvita/ftpvita.c:439-484 | So does CWD, for arbitrary arguments, those that snprintf cuts included |
| `FtpPath.ParentShorter` | src/plugins/ftpd/libftpvita/ftpvita.c:419-437 | dir_up strictly shortens every such path but "/" |
| `FtpPath.CdupReachesRoot` | src/plugins/ftpd/libftpvita/ftpvita.c:511-515 | Enough CDUPs lead to "/" from anywhere |
| `FtpPath.Session.Cdup` | src/plugins/ftpd/libftpvita/ftpvita.c:511-515 | CDUP moves the session's buffer to the parent path and keeps the session well formed |
| `FtpPath.Session.ChangeTo` | src/plugins/ftpd/libftpvita/ftpvita.c:450-481 | CWD on an argument: "/", "..", relative and absolute targets, paths too long for the buffer, and the 550 reply that changes nothing |
| `FtpPath.Session.Cwd` | src/plugins/ftpd/libftpvita/ftpvita.c:439-484 | CWD on the received line, with 500 and no change exactly when it has no argument |
| `FtpStack.ParentPops` | src/plugins/ftpd/libftpvita/ftpvita.c:419-437 | dir_up of a rendered stack is the rendering of the popped stack |
| `FtpStack.TargetPushes` | src/plugins/ftpd/libftpvita/ftpvita.c:461-474 | A clean relative argument of any number of components pushes them, if the path fits |
| `FtpStack.StepRefines` | src/plugins/ftpd/libftpvita/ftpvita.c:439-515 | Every clean command whose path fits moves the string as the stack moves, missing directories included |
| `FtpStack.StepRefinesIff` | src/plugins/ftpd/libftpvita/ftpvita.c:439-515 | The path follows the stack if and only if it fits the buffer, or the named directory is missing and the one the cut path names is missing too or is the working directory |
| `FtpStack.RunRefines` | src/plugins/ftpd/libftpvita/ftpvita.c:439-515 | Over any run of commands whose paths fit, with directories coming and going, the path is the rendering of the stack |
| `FtpStack.RenderInjective` | src/plugins/ftpd/libftpvita/ftpvita.c:414-484 | Different stacks have different paths |
| `FtpStack.CwdThenCdup` | src/plugins/ftpd/libftpvita/ftpvita.c:439-515 | CWD into one existing component and CDUP cancel out |
| `FtpStack.LineRefines` | src/plugins/ftpd/libftpvita/ftpvita.c:439-484 | A clean CWD command sent as a line moves the path as the stack moves |
| `FtpStack.FilePathBelow` | src/plugins/ftpd/libftpvita/ftpvita.c:555-569 | The path built for a clean relative file name has the working directory's components followed by its own |
| `FtpFile.FileArgumentScan` | src/plugins/ftpd/libftpvita/ftpvita.c:559 | The scan of any line stores the name exactly when there is one and returns 2; otherwise it stores nothing and returns -1, or 0 for a line that starts with a blank |
| `FtpFile.GenFilepath` | src/plugins/ftpd/libftpvita/ftpvita.c:555-569 | The path for every line: the named file, cut to the buffer; where the scan stores no name, the one that the uninitialised buffer holds |
| `FtpFile.NamedBelow` | src/plugins/ftpd/libftpvita/ftpvita.c:555-569 | A line with a clean relative name leads below the working directory, if the path fits |
| `FtpFile.AbsoluteNamed` | src/plugins/ftpd/libftpvita/ftpvita.c:561-563 | A line with any absolute name leads to that name, whatever the working directory |
| `FtpFile.NamedFromRoot` | src/plugins/ftpd/libftpvita/ftpvita.c:555-569 | So a clean absolute name leads to its own components |
| `ClientTable.ClientList.Add` | src/plugins/ftpd/libftpvita/ftpvita.c:821-840 | Statement by statement, the client becomes the first node of a well-formed list whose count is one more |
| `ClientTable.ClientList.Delete` | src/plugins/ftpd/libftpvita/ftpvita.c:842-860 | Statement by statement, the k-th node and only that one leaves the list |
| `ClientTable.LinkFrontAdds` | src/plugins/ftpd/libftpvita/ftpvita.c:826-837 | Linking at the front keeps the list doubly linked, acyclic and counted |
| `ClientTable.UnlinkRemoves` | src/plugins/ftpd/libftpvita/ftpvita.c:847-857 | So does unlinking, at any position |
| `FtpProtocol.StepKeepsInv` | src/plugins/ftpd/libftpvita/ftpvita.c:821-1060 | Every step of the server thread, a client thread or shutdown keeps the invariant |
| `FtpProtocol.RunKeepsInv` | src/plugins/ftpd/libftpvita/ftpvita.c:821-1060 | So every reachable state has it |
| `FtpProtocol.ListWellFormed` | src/plugins/ftpd/libftpvita/ftpvita.c:821-860 | Until shutdown takes over, `client_list` is a well-formed acyclic doubly linked list and `number_clients` its length |
| `FtpProtocol.NoUseAfterFree` | src/plugins/ftpd/libftpvita/ftpvita.c:821-968 | Over every interleaving a step touches a freed node if and only if it is a read of the data connection at lines 884-887 and the aborted client has freed itself in the run; no other step does: not the client's accesses in its loop and while closing, not the list surgery, not the cursor and its saved next |
| `FtpProtocol.WritesTouchedOnly` | src/plugins/ftpd/libftpvita/ftpvita.c:821-968 | A step writes and frees only the nodes that count as touched |
| `FtpProtocol.ReadsTouchedOnly` | src/plugins/ftpd/libftpvita/ftpvita.c:821-968 | What a step does to the list and the threads depends on no other node |
| `FtpProtocol.ShutdownReadsFreed` | src/plugins/ftpd/libftpvita/ftpvita.c:880-964 | Such a run exists: the client is interrupted and frees its node between the abort and the read |
| `FtpProtocol.JoinedIsFreed` | src/plugins/ftpd/libftpvita/ftpvita.c:872-892 | When a join ends the joined client's node has been freed, so `next` had to be saved before |
| `FtpProtocol.FreedUnlistedBeforeShutdown` | src/plugins/ftpd/libftpvita/ftpvita.c:926-964 | Before shutdown walks the list, a client that frees its node is not in the list |
| `FtpProtocol.OnlyAbortedLeaveLinked` | src/plugins/ftpd/libftpvita/ftpvita.c:880-964 | In every run, shutdown included, a client frees itself only if it has unlinked itself or shutdown has aborted it |
| `FtpProtocol.UnlinkedOnce` | src/plugins/ftpd/libftpvita/ftpvita.c:842-860 | No client is unlinked twice in any run |
| `FtpProtocol.NobodyAfterFini` | src/plugins/ftpd/libftpvita/ftpvita.c:1157-1177 | When shutdown has released the mutex no thread is left that would use the mutex or the list |
| `FtpProtocol.EmptyAfterFini` | src/plugins/ftpd/libftpvita/ftpvita.c:1171-1177 | When shutdown is over, `client_list` is the empty list and the count 0, in every run |
| `FtpProtocol.NoAcceptAfterClose` | src/plugins/ftpd/libftpvita/ftpvita.c:1159-1166 | Once shutdown has closed the server socket no client is accepted |
| `FtpProtocol.ShutdownCompletes` | src/plugins/ftpd/libftpvita/ftpvita.c:862-1177 | There is a run with a client in which shutdown completes |
| `FtpProtocol.ShutdownCanFinishIff` | src/plugins/ftpd/libftpvita/ftpvita.c:862-968 | From any state in which shutdown walks or joins, some continuation finishes shutdown if and only if no client waits for the mutex in `client_list_delete` |
| `FtpProtocol.WaiterForGood` | src/plugins/ftpd/libftpvita/ftpvita.c:842-892 | A client that waits there while shutdown has the mutex waits after every continuation, and shutdown is still walking |
| `FtpProtocol.JoinMovesIff` | src/plugins/ftpd/libftpvita/ftpvita.c:869-892 | While shutdown joins a client, some step brings the end of the join nearer if and only if that client is not waiting for the mutex |
| `FtpProtocol.HangsForGood` | src/plugins/ftpd/libftpvita/ftpvita.c:842-892 | A join of a waiting client is still such a join after every continuation of the run |
| `FtpProtocol.ShutdownCanHang` | src/plugins/ftpd/libftpvita/ftpvita.c:842-1177 | Such a run exists: a client disconnects just before shutdown locks the mutex |
| `TshList.List.Find` | src/list.c:79-89 | Finds the first node with the key, or null |
| `TshList.List.Push` | src/list.c:91-108 | Appends one fresh node and keeps the heap list doubly linked and counted; on a failed allocation nothing changes |
| `TshList.List.Remove` | src/list.c:110-134 | Takes out the first node with the key and no other, and returns the node that followed it |
| `TshList.List.Detach` | src/list.c:118-131 | The relinking, for a node at the head, the tail, in between or alone |
| `Instances.Store.CreateInstance` | src/plugins.c:48-66 | The instance goes to the end of its process's list, which is added if missing; each failed allocation leaves what had been done |
| `InstanceModel.LoadAppends` | src/plugins.c:48-66 | The instance, with the module's uid, comes to the end of its process's list, a new process to the end of the store, and nothing else moves |
| `InstanceModel.LoadConserves` | src/plugins.c:48-66 | Loading adds exactly that module in that process to what runs if both allocations succeed, and nothing otherwise |
| `InstanceModel.LoadThenUnloadCalls` | src/plugins.c:48-226 | Unloading a plugin that was loaded once and ran nowhere else stops and unloads exactly that module there |
| `Instances.Store.UnloadPlugin` | src/plugins.c:207-226 | Exactly the first instance of the plugin in every process is stopped, unloaded and removed, in list order |
| `Instances.Store.UnloadPluginsForPid` | src/plugins.c:232-252 | Each instance of the process is stopped once, in order; then that process alone is removed |
| `Instances.Store.OnlyOneChanged` | src/plugins.c:48-252 | A change to one instance list leaves the store a map from distinct pids to disjoint, well-formed lists, and every other process as it was |
| `InstanceModel.UnloadConserves` | src/plugins.c:207-226 | What was running is what still runs together with what was unloaded: nothing lost, nothing twice |
| `InstanceModel.LoadThenUnload` | src/plugins.c:48-226 | Loading a plugin that runs nowhere and unloading it restores the store, up to an empty process entry |
| `InstanceModel.StopsEachOnce` | src/plugins.c:245-250 | The i-th stop call is for the i-th instance |
| `InstanceModel.RemovedKeepsKeys` | src/list.c:110-134 | Removal keeps keys distinct and leaves none of the removed one |
| `CString.ComparesTexts` | src/registry.c:114 | strncmp gives 0 exactly when the first n characters of the two texts agree |
| `RegistryFormat.StoredIsRead` | src/registry.c:137-165 | A header and the encodings of any records decode to those records |
| `RegistryFormat.IntRoundTrip` | src/registry.h:31-34 | The four little-endian bytes of any int decode to it |
| `RegistryFormat.EncodeIntBytes` | src/registry.h:31-34 | Byte i of an int on disk is the value modulo 2^32, divided by 256^i, modulo 256 |
| `RegistryFormat.OverwrittenRecords` | src/registry.c:113-127 | Writing 36 bytes over record k changes record k and no other |
| `Registry.HeaderReads` | src/registry.h:22-30 | The header that is written reads as the magic text TSR and version 1 |
| `Registry.File.Read` | src/registry.c:39-41 | Gives what there is, up to n bytes, and moves past it |
| `Registry.File.Write` | src/registry.c:43-45 | Replaces what lies under it, extends the file at its end, and changes nothing else |
| `Registry.File.FindEntry` | src/registry.c:107-120 | On any bytes and any key the search stops where the key first compares equal, or at the end, with the position there and the entry holding what was read over what it held |
| `Registry.File.Set` | src/registry.c:87-135 | The bytes afterwards, for every file and key: the value is replaced in the first matching entry or an entry is added; a file shorter than a header is refused unchanged, an empty one gets a header |
| `RegistryReads.SetBytesUpdates` | src/registry.c:87-135 | On a well-formed file those bytes are a well-formed file with the same header, and for every key its records are the records updated for the key's first 32 characters |
| `RegistryReads.SetReadsBackIff` | src/registry.c:87-135 | For every key and well-formed file: the key has its value afterwards if and only if it was there, is shorter than 31 characters or the byte left over is the one that belongs there; otherwise it is absent and the file has grown |
| `RegistryReads.LongKeyLost` | src/registry.c:122-127 | Inputs for which it is lost: any key of 31 characters, a file with only a header, and uninitialised memory that is not zero behind the key |
| `RegistryFormat.UpdateIsMapUpdate` | src/registry.c:107-127 | For a key that reads back, the update makes its lookup give the value, changes no other key's lookup and no record's place, and adds a record only for an absent key |
| `RegistryFormat.UpdateKeepsDistinct` | src/registry.c:107-127 | Distinct keys stay distinct |
| `Registry.File.GetList` | src/registry.c:47-85 | For every file, a last partial record included, the list gets one entry per read, in order, numbered from 0; a file shorter than a header gives -1 |
| `RegistryReads.WholeRecords` | src/registry.c:64-73 | On a well-formed file these are its records |
| `Registry.File.StoreList` | src/registry.c:137-165 | The file becomes the header and the encoded list; an empty list is reported |
| `HexKeys.HexInjective` | src/plugins.c:282-283 | Different ids have different keys |
| `HexKeys.HexKeyFits` | src/plugins.c:282-283 | A key has one to eight digits |
| `HexKeys.HexKeyDigits` | src/plugins.c:282-283 | It is written in decimal digits and capital letters, without leading zeros |
| `PluginRuns.MatchMeans` | src/plugins.c:288 | The 8-character comparison accepts a record exactly if its first eight characters are the key |
| `PluginRuns.FindsOwnRecordIff` | src/plugins.c:285-293 | The search finds the plugin's own record if and only if no longer record with the same eight characters comes first |
| `PluginRuns.LongerRecordCaptures` | src/plugins.c:285-297 | An input for which it does not: a plugin without a record comes up enabled |
| `PluginRuns.LongerRecordExists` | src/plugins.c:285-297 | Every eight-digit id has such an input |
| `PluginRuns.CapturedFromOutside` | src/plugins.c:254-380 | No run captures a key or frees it: it is captured afterwards if and only if a record in the file at the start captures it |
| `PluginManager.Manager.InitPlugins` | src/plugins.c:262-316 | Flags, records and the decision to store are those of the step model; an unchanged registry is not written |
| `PluginManager.Manager.SetPluginState` | src/plugins.c:349-380 | The plugin list and the file move as the step model, the instance store as a load or an unload of that plugin; unknown ids give -1 and change nothing, failed loads change no state and no file |
| `PluginRuns.SetOutcome` | src/plugins.c:349-380 | Unknown plugins and kernel or shell plugins that cannot be loaded leave flags and registry as they are; otherwise that plugin's flag and record take the state, and no other flag changes |
| `PluginManager.ToggleRuns` | src/plugins.c:349-380 | Switching on adds the module in the kernel for a kernel plugin, in the shell for another shell plugin, and nothing for the rest or when it cannot be loaded or recorded; switching off takes away exactly what is unloaded |
| `PluginManager.Perform` | src/plugins.c:254-380 | Any run of toggles and restarts made with these methods on the heap, from any well-formed or missing registry file, ends where the step model says |
| `PluginRuns.StepTruth` | src/plugins.c:254-380 | A step changes the registry's answer for a plugin only by a successful set of that plugin |
| `PluginRuns.RegistryRemembers` | src/plugins.c:254-380 | Over any run the registry's answer for every id is the last state successfully set, else the initial one |
| `PluginRuns.FlagAgrees` | src/plugins.c:254-380 | Over any run, the flag of each plugin whose key is not captured is the registry's answer for it, hence the last state successfully set, whatever becomes of the others |
| `PluginRuns.FlagsAgree` | src/plugins.c:254-380 | So over any run without captured keys all flags agree |
| `PluginRuns.SecondInitChangesNothing` | src/plugins.c:254-316 | After an init, and any toggles and restarts, another init over the same plugins leaves the registry as it is |
| `PluginRuns.StateSurvivesRestartIff` | src/plugins.c:254-380 | Either state, set after an init, is the flag after the next init if and only if the plugin's key is not captured |
| `PluginRuns.CapturedDecides` | src/plugins.c:285-297 | If it is captured, the capturing record's value is the flag, whatever was set |
| `Pixels.ScaledBytes` | src/gui/blit.c:24-28 | Masking, multiplying by m, shifting and masking scales each byte by m/256, rounded down, by itself |
| `Words.BitsOfAndOr` | src/gui/blit.c:24-31 | The masks and the final or work bit by bit |
| `Blit.BlendMixesBytes` | src/gui/blit.c:15-31 | For 0 < alpha < 255 each colour byte is floor(c(255-alpha)/256) + floor(d·alpha/256), at most 254, with no carry between bytes |
| `Blit.BlendExtremes` | src/gui/blit.c:140-151 | Alpha 0 replaces the pixel; alpha 255 leaves it |
| `Blit.BlitSquare` | src/gui/blit.c:127-154 | Every covered pixel is blended once, from its old value, and no other pixel changes |
| `Blit.OffsetsApart` | src/gui/blit.c:137 | Within rows, different columns or rows are different pixels |
| `Menu.Cursor.NextItem` | src/gui/menu.c:139-154 | The recursion terminates on a selectable index in range, the specified one |
| `Menu.Cursor.PreviousItem` | src/gui/menu.c:156-171 | The same backwards |
| `MenuModel.NextInOrder` | src/gui/menu.c:139-171 | Next goes to the following selectable item, or from the last to the first, and previous goes back |
| `MenuModel.MovesInverse` | src/gui/menu.c:139-171 | On selectable items next and previous undo each other |
| `MenuModel.FullCycle` | src/gui/menu.c:139-154 | As many presses of next as there are selectable items reach each of them once and return to the start |

## Left out

- Socket, thread, module, display, power and hook calls, logging, and the user-mode system call wrappers: they appear only as parameters and as steps that may or may not happen.
- Liveness of the FTP server beyond whether shutdown can finish; fairness is not modelled.
- `FtpProtocol.StepKeepsInv`: reading `next` and `thid` and aborting the control socket (ftpvita.c:875-881) are one step, during which the client cannot free itself; an interrupted receive comes only from such an abort, which stays pending until the client receives; each read at lines 884-887 is a step, at least one and any number of them, and what a read of freed memory gives changes nothing else; thread ids are not reused; `malloc` for a new client succeeds; the sections under the mutex are one step each, and are proved statement by statement in `ClientTable.ClientList`.
- `FtpPath.Session.Cwd`: an argument that leaves no room in `cmd_path` for itself, the slash and the terminator; input lines longer than an unsigned int can count. The same for the name in `FtpFile.GenFilepath`.
- `FtpStack.FilePathBelow`: `Components` is how a file system reads a path, not code of the repository.
- `FtpPort.CmdPort`: `inet_pton` is a parameter, of which `FtpPort.PortRecoversPasv` needs only that it reads the address's dotted quad.
- Data connections and transfers of the FTP server, and the commands other than CWD, CDUP, PASV, PORT, TYPE, REST and the file name they are given; the table of commands.
- `FtpCommands.ReadCommand`: words longer than the buffers that the scan stores them in, here and in `FtpCommands.CmdType`.
- `Sscanf.Vsscanf`: formats are well formed (no `%[` without a closing bracket); floating-point conversions end the scan as in the code; `strtol` is modelled by the digits it takes; characters are those of a NUL-terminated string, and stored values are a sequence rather than memory behind pointers.
- The CRC table is a function of the index, with the table's 256 constants, rather than an array.
- The local buffers of CWD (`cmd_path`, `tmp_path`) are values; the session's own buffer is an array edited in place.
- `Registry.File.GetList`: the header's contents, which the code never looks at; reads, writes, opens and the allocations of list nodes succeed, so `list_clear`, which frees each node before it reads that node's `next` (src/list.c:70-72), is not modelled.
- `PluginManager.Manager.SetPluginState`: plugin names, paths and versions are not part of the state.
- `PluginManager.Manager.InitPlugins`: the registry file is well formed or empty, and the allocations for the loaded state succeed.
- `PluginRuns.FlagsAgree`: plugin ids are distinct at each restart and freshly found plugins start disabled, as zeroed memory makes them.
- The directory walk of `find_plugins`, the parsing of `.tai` files, `queue_plugins_for_pid` and `load_initial_plugins`.
- `blit_string` and the fonts; rectangles outside the frame buffer; signed overflow of offsets.
- `Menu.Cursor.NextItem`: empty menus, menus of subtitles only, and dynamic menus before they are drawn; drawing, opening and actions.
