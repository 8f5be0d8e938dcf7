# Verified models of a systems study repository

A Dafny 4.11 model of the parts of the repository that carry hard properties, with proofs of those properties.
`dafny verify dfyconfig.toml` checks everything.

**The xv6 shell** (`sh-xv6.c`). `ShellLexer` and `ShellGrammar` define tokens, derivations, the trees they denote and the
recursive descent over tokens; `ShellGrammarTheorems` proves that the descent decides the grammar. `ShellParser` is the
parser as written: a cursor moved through a character array, an arena counter, a pass that writes NULs into the line, each
method proved against the grammar. `ShellPrinter` says which tokens a line spells and what it means, and proves that
parsing undoes printing. `ShellRun` models a whole session, one step per system call, under every interleaving of all
processes and with every fork, pipe, open and execve free to fail; `ShellRunTheorems` and `ShellSession` prove what every
run keeps, `ShellPlan` that exactly the programs of each tree are run, in the order that lists call for, and
`ShellProgress` that every job comes to its end after a number of steps that its tree decides.

**Concurrent protocols.** Each is a step system for any number of threads, one step per lock, load, store, print or wait
operation; a run is any order of steps (`Runs`). `RacyCounter` is `sum.cpp`, `SpinCounter` the spin lock with its counter,
`Semaphores` and `CondVar` the two bracket printers with their common specification in `Brackets`, `RingBuffer` the
circular buffer (also as a class that changes an array in place), `Monitor` the mutex and condition variable that `CondVar`
and `RingBuffer` share, `Philosophers` the dining philosophers, `HandOff` the semaphore of `sem.py` (a class, and the
threads that use it). `Counting` has totals and counts over threads.

**Search and scheduling.** `ModelChecker` is the breadth-first search of `model-checker.py` over replayed traces;
`GreenThreads` is the round-robin runtime, a class with its search loop.

**Loaders.** `BootLoader` is `bootmain.c` over a byte array of 2^32 addresses, with 32-bit arithmetic; `ElfFile` writes ELF
files field by field and proves what becomes of them. `ProcessStack` is the stack part of `loader-static.c`, byte by byte,
with a reader of the result after the ABI. `LittleEndian` has numbers in bytes.

Where the source and what is said of it differ, the models follow the code. A redirection written later is an outer node, so
of two redirections of one stream the one written first takes effect. `>>` opens without appending. `a & b` is not in the
grammar and panics. The assertion at the end of `sum-scalability-spin.c` fails for arguments from -N to -1, and an
assertion before it for more than 64. A negative `n` in `pc-cv.c` does not stop the producers. A buffer of one slot in
`pc.cpp`, or `n` equal to 0, stops everything for ever.

## Model

| member | source | states |
|---|---|---|
| `ShellGrammarTheorems.ParserDecidesGrammar` | OperatingSystem/virtualization/unix-shell/sh-xv6.c:305-401 | The parser returns a tree for a token string exactly if the grammar derives the string with that tree: lines of pipelines with ampersands and semicolons, pipelines of blocks and simple commands, at most 9 words in each simple command. |
| `ShellGrammarTheorems.ParserRejectsTheRest` | OperatingSystem/virtualization/unix-shell/sh-xv6.c:305-401 | The parser panics on exactly the token strings that have no derivation. |
| `ShellGrammarTheorems.GrammarIsUnambiguous` | OperatingSystem/virtualization/unix-shell/sh-xv6.c:317-401 | All derivations of a line denote the same tree. |
| `ShellGrammarTheorems.LineComplete` | OperatingSystem/virtualization/unix-shell/sh-xv6.c:317-330 | A derivation followed by the end or `)` is parsed to its tree, and exactly its tokens are consumed. |
| `ShellGrammarTheorems.PipeComplete` | OperatingSystem/virtualization/unix-shell/sh-xv6.c:332-341 | The same for pipelines, up to `&`, `;`, `)` or the end. |
| `ShellGrammarTheorems.SimpleComplete` | OperatingSystem/virtualization/unix-shell/sh-xv6.c:365-401 | The same for blocks and simple commands, up to any token that ends one. |
| `ShellGrammarTheorems.LineSound` | OperatingSystem/virtualization/unix-shell/sh-xv6.c:317-330 | Whatever is accepted is the yield of a derivation within the word limit that denotes the returned tree. |
| `ShellGrammarTheorems.PipeSound` | OperatingSystem/virtualization/unix-shell/sh-xv6.c:332-341 | The same for pipelines. |
| `ShellGrammarTheorems.SimpleSound` | OperatingSystem/virtualization/unix-shell/sh-xv6.c:365-401 | The same for blocks and simple commands. |
| `ShellGrammarTheorems.ExtendSeparates` | OperatingSystem/virtualization/unix-shell/sh-xv6.c:385-400 | Filling the exec node through the saved pointer while `ret` is wrapped in redirections gives the tree of the words and redirections collected apart, the last-written redirection outermost. |
| `ShellGrammarTheorems.ItemsComplete` | OperatingSystem/virtualization/unix-shell/sh-xv6.c:388-400 | Fewer than MAXARGS words, mixed with redirections in any order, are met one after another. |
| `ShellGrammarTheorems.ItemsSound` | OperatingSystem/virtualization/unix-shell/sh-xv6.c:388-400 | What the word loop accepts is words and redirections, fewer than MAXARGS words. |
| `ShellGrammarTheorems.RedirsComplete` | OperatingSystem/virtualization/unix-shell/sh-xv6.c:343-363 | Redirections after a block wrap it, each around those before it. |
| `ShellGrammarTheorems.RedirsSound` | OperatingSystem/virtualization/unix-shell/sh-xv6.c:343-363 | What the redirection loop consumes is operators each followed by a word. |
| `ShellGrammarTheorems.AmpsComplete` | OperatingSystem/virtualization/unix-shell/sh-xv6.c:321-324 | n ampersands make n background nodes. |
| `ShellGrammarTheorems.AmpsSound` | OperatingSystem/virtualization/unix-shell/sh-xv6.c:321-324 | The background nodes made are as many as the ampersands consumed. |
| `ShellLexer.LexedWordsAreDelimited` | OperatingSystem/virtualization/unix-shell/sh-xv6.c:259-289 | The bounds the lexer gives for a word hold only word characters, and no word character follows. |
| `ShellLexer.LexSkipsSpaces` | OperatingSystem/virtualization/unix-shell/sh-xv6.c:264-264 | Skipping blanks first does not change the tokens that follow. |
| `ShellLexer.SkipSpaces` | OperatingSystem/virtualization/unix-shell/sh-xv6.c:264-264 | Stops at the first character that is not blank, within the line. |
| `ShellLexer.SkipWord` | OperatingSystem/virtualization/unix-shell/sh-xv6.c:281-281 | Stops at the first blank or symbol, within the line. |
| `ShellParser.Parser.constructor` | OperatingSystem/virtualization/unix-shell/sh-xv6.c:305-309 | `es` is the position of the first NUL, and the cursor starts at 0. |
| `ShellParser.Parser.SkipBlanks` | OperatingSystem/virtualization/unix-shell/sh-xv6.c:264-264 | The loop stops at the first character that is not blank. |
| `ShellParser.Parser.ScanWord` | OperatingSystem/virtualization/unix-shell/sh-xv6.c:281-281 | The loop stops at the end of the word. |
| `ShellParser.Parser.Peek` | OperatingSystem/virtualization/unix-shell/sh-xv6.c:291-298 | Moves over blanks only, keeps the remaining tokens, and tells whether the next one starts with one of `toks`. |
| `ShellParser.Parser.GetToken` | OperatingSystem/virtualization/unix-shell/sh-xv6.c:259-289 | Consumes exactly the next token and returns its kind and, for a word, its bounds; the cursor stays in the line. |
| `ShellParser.Parser.Zalloc` | OperatingSystem/virtualization/unix-shell/sh-xv6.c:92-99 | Hands out `sz` bytes if the arena stays below its 4096 bytes, and otherwise panics with the arena as it was. |
| `ShellParser.Parser.ParseAmps` | OperatingSystem/virtualization/unix-shell/sh-xv6.c:321-324 | Moving the cursor does what the grammar says of `&`, or the background nodes overflow the arena. |
| `ShellParser.Parser.ParseLine` | OperatingSystem/virtualization/unix-shell/sh-xv6.c:317-330 | From any cursor: the specified tree with the specified tokens left and its nodes bumped from the arena, or a panic exactly if the specification rejects or the tree does not fit. |
| `ShellParser.Parser.ParsePipe` | OperatingSystem/virtualization/unix-shell/sh-xv6.c:332-341 | The same for a pipeline. |
| `ShellParser.Parser.ParseRedirs` | OperatingSystem/virtualization/unix-shell/sh-xv6.c:343-363 | The same for redirections around a command. |
| `ShellParser.Parser.ParseRedir` | OperatingSystem/virtualization/unix-shell/sh-xv6.c:347-361 | One redirection: operator, word, node; a missing word or a full arena panics. |
| `ShellParser.Parser.ParseBlock` | OperatingSystem/virtualization/unix-shell/sh-xv6.c:365-375 | The same for a block with its redirections. |
| `ShellParser.Parser.ParseExec` | OperatingSystem/virtualization/unix-shell/sh-xv6.c:377-401 | The same for a block or a simple command. |
| `ShellParser.Parser.ParseArgs` | OperatingSystem/virtualization/unix-shell/sh-xv6.c:388-400 | The same for the words and redirections of a simple command. |
| `ShellParser.Parser.ParseArg` | OperatingSystem/virtualization/unix-shell/sh-xv6.c:390-395 | One round of the word loop: stops, adds a word below index MAXARGS, or panics. |
| `ShellParser.Parser.ParseArgRedirs` | OperatingSystem/virtualization/unix-shell/sh-xv6.c:396-396 | The redirections after a word. |
| `ShellParser.Parser.ParseCmd` | OperatingSystem/virtualization/unix-shell/sh-xv6.c:305-315 | A tree the grammar derives and that fits, with every word readable as a C string, or a panic exactly if no derivable tree fits; a panic leaves the line as it was. |
| `ShellParser.Parser.NulTerminate` | OperatingSystem/virtualization/unix-shell/sh-xv6.c:404-444 | The recursive pass over the buffer writes the NULs of the specification, word by word. |
| `ShellParser.ZapAt` | OperatingSystem/virtualization/unix-shell/sh-xv6.c:404-444 | A NUL goes right behind each word of the tree and nowhere else. |
| `ShellParser.NulTerminationKeepsWords` | OperatingSystem/virtualization/unix-shell/sh-xv6.c:404-444 | After the pass the C string at every argv and file pointer is the word the lexer delimited: ending one word never damages another. |
| `ShellParser.ParsedWordsAreDelimited` | OperatingSystem/virtualization/unix-shell/sh-xv6.c:388-399 | Every word of a parsed tree is delimited in the line, so the NUL behind it hits no word character. |
| `ShellParser.LineWords` | OperatingSystem/virtualization/unix-shell/sh-xv6.c:317-401 | A tree holds only words of the line it was parsed from. |
| `ShellPrinter.ParseUndoesPrint` | OperatingSystem/virtualization/unix-shell/sh-xv6.c:259-401 | For every tree with real words and at most 9 in a simple command, lexing and parsing the parenthesised print gives the same tree, word for word. |
| `ShellPrinter.ParseUndoesRender` | OperatingSystem/virtualization/unix-shell/sh-xv6.c:259-401 | The same for the text of any derivation, parenthesised or not. |
| `ShellPrinter.LexExactly` | OperatingSystem/virtualization/unix-shell/sh-xv6.c:259-298 | For every line the tokens are exactly those that spell it: their texts in order with only blank space before, between and after them, where no word goes on and no `>` is followed by another. |
| `ShellPrinter.MeansExactly` | OperatingSystem/virtualization/unix-shell/sh-xv6.c:259-401 | From characters to trees: a line, spaced or not, means a tree exactly if it spells tokens from which the grammar derives the tree. |
| `ShellPrinter.PrintableExactly` | OperatingSystem/virtualization/unix-shell/sh-xv6.c:259-401 | The trees that are printed and parsed back are exactly those that some line means. |
| `ShellPrinter.ParsedIsPrintable` | OperatingSystem/virtualization/unix-shell/sh-xv6.c:259-401 | What any accepted line means can be printed and parsed again. |
| `ShellPrinter.LineFewArgs` | OperatingSystem/virtualization/unix-shell/sh-xv6.c:388-397 | The word limit on derivations is the word limit on trees. |
| `ShellPrinter.ParsePrinted` | OperatingSystem/virtualization/unix-shell/sh-xv6.c:305-315 | The same through the imperative parser: it returns the printed tree exactly if the tree fits in the arena. |
| `ShellPrinter.LexUndoesRender` | OperatingSystem/virtualization/unix-shell/sh-xv6.c:259-289 | The lexer finds the written tokens again. |
| `ShellPrinter.ShowMeans` | OperatingSystem/virtualization/unix-shell/sh-xv6.c:317-401 | The printed derivation denotes the tree it was printed from. |
| `ShellPrinter.MapLine` | OperatingSystem/virtualization/unix-shell/sh-xv6.c:317-330 | The parser never looks inside a word: renaming words commutes with parsing a line. |
| `ShellPrinter.MapItems` | OperatingSystem/virtualization/unix-shell/sh-xv6.c:388-400 | The same for simple commands, including the count of words. |
| `ShellRun.LowestFree` | OperatingSystem/virtualization/Process/fork-execve-exit/mine/inherits.c:36-36 | dup, open and pipe get the lowest unused descriptor. |
| `ShellSession.ProgramsGetTheirDescriptors` | OperatingSystem/virtualization/unix-shell/sh-xv6.c:101-158 | In every run, a process that gets through execve has exactly descriptors 0, 1 and 2 open; 0 and 1 are those given by the enclosing pipes and redirections, 2 is the shell's. |
| `ShellSession.NoPipeEndLeaks` | OperatingSystem/virtualization/unix-shell/sh-xv6.c:137-157 | A program holds a pipe end only as standard output inside the left side of the node that made the pipe, or as standard input inside the right side. |
| `ShellSession.PipeEndsAreHeldInPlace` | OperatingSystem/virtualization/unix-shell/sh-xv6.c:137-157 | Any process that holds an end of a pipe, and is not about to exit, is setting the pipe up or is inside the side of the pipe node that the end is for, with the end on that descriptor. |
| `ShellSession.NoWriterWithoutLeftSide` | OperatingSystem/virtualization/unix-shell/sh-xv6.c:154-157 | Once a pipe is set up and every process forked for its left side has exited, nobody at all holds the write end, so the right side gets its end of file. |
| `ShellSession.WriteEndsBelongToTheLeft` | OperatingSystem/virtualization/unix-shell/sh-xv6.c:137-157 | Any process with a write end, also one about to exit, is setting the pipe up or was forked for its left side and has it as standard output. |
| `ShellSession.OnePipePerNode` | OperatingSystem/virtualization/unix-shell/sh-xv6.c:137-139 | No pipe node makes two pipes in a run. |
| `ShellSession.WaitsFindTheirOwnChildren` | OperatingSystem/virtualization/unix-shell/sh-xv6.c:130-163 | At every wait4(-1) the unreaped children are exactly those forked for the current list or pipe node or for the foreground job, less the one the second wait of a pipe finds reaped; a background child is never among them. |
| `ShellSession.OnlyBackgroundAtPrompt` | OperatingSystem/virtualization/unix-shell/sh-xv6.c:187-196 | When the shell prompts again, every process left was started under a background node. |
| `ShellSession.RightStartsAfterLeft` | OperatingSystem/virtualization/unix-shell/sh-xv6.c:130-135 | When the right side of a list is about to run, whatever of the left side is still there was put in the background inside it. |
| `ShellSession.NobodyIsStuck` | OperatingSystem/virtualization/unix-shell/sh-xv6.c:101-198 | In every state of every run, a process that has not exited can act, or waits, through children that wait in turn, for one that can, by a call that succeeds: no wait4 is for a child that cannot exit. |
| `ShellPlan.FinishedJobRanItsPlan` | OperatingSystem/virtualization/unix-shell/sh-xv6.c:101-158 | The plan of a tree lists its programs with words, standard input and output, by recursion over the tree. Once all processes of a job have exited, each program of its plan was started exactly if no failed call gave it up, in every interleaving. |
| `ShellPlan.WithoutFailuresAllIsRun` | OperatingSystem/virtualization/unix-shell/sh-xv6.c:101-158 | If no call fails, a job whose processes have all exited has run every program of its tree. |
| `ShellPlan.OnlyThePlanIsRun` | OperatingSystem/virtualization/unix-shell/sh-xv6.c:101-158 | Whatever program a process runs is in the plan of its job, and its descriptors are exactly 0, 1 and 2, as planned. |
| `ShellPlan.NoProgramStartsTwice` | OperatingSystem/virtualization/unix-shell/sh-xv6.c:101-158 | No program of a tree is started twice. |
| `ShellPlan.NoTwoRunTheSame` | OperatingSystem/virtualization/unix-shell/sh-xv6.c:101-158 | No two processes ever run the same program of a tree. |
| `ShellPlan.LeftRunsBeforeRight` | OperatingSystem/virtualization/unix-shell/sh-xv6.c:130-135 | `left ; right`: every program of the left side that is not in the background there starts before any program of the right side. |
| `ShellPlan.LeftIsOver` | OperatingSystem/virtualization/unix-shell/sh-xv6.c:130-135 | When a program of the right side starts, no process runs a program of the left side, or has one still to run, unless a background node inside it stands above. |
| `ShellPlan.NoProgramIsForgotten` | OperatingSystem/virtualization/unix-shell/sh-xv6.c:101-158 | At each moment each program of each job is in exactly one of three conditions: still to be run by some process, started, or given up for a failed call. |
| `ShellPlan.NextDuty` | OperatingSystem/virtualization/unix-shell/sh-xv6.c:101-158 | Each system call passes every program on, starts it, or fails and gives up what the failing call stands for: a list only its left side, a pipe only that side, anything else all. |
| `ShellPlan.JobPlanIsTree` | OperatingSystem/virtualization/unix-shell/sh-xv6.c:101-158 | The plan is exactly the simple commands with words in the tree, with standard input and output as the nodes above call for. |
| `ShellProgress.FinishedMeansAllStepsTaken` | OperatingSystem/virtualization/unix-shell/sh-xv6.c:101-198 | The processes of a job take no more steps than its tree calls for; if no call fails, the job has finished exactly when they have taken that many, whatever the interleaving. |
| `ShellProgress.WorkIsConserved` | OperatingSystem/virtualization/unix-shell/sh-xv6.c:101-198 | In every run, steps taken by a job and steps it has left add up to what its tree calls for, or to less after failures. |
| `ShellProgress.EveryJobCanFinish` | OperatingSystem/virtualization/unix-shell/sh-xv6.c:101-198 | From every state of every run each job can finish, by steps of its own processes without failures, while the shell stays where it is. |
| `ShellProgress.NotGivenUpCanRun` | OperatingSystem/virtualization/unix-shell/sh-xv6.c:101-198 | A program that was not given up was started or can still be. |
| `ShellProgress.ShellGoesOn` | OperatingSystem/virtualization/unix-shell/sh-xv6.c:182-199 | Only the end of the input ends the shell. |
| `ShellProgress.ShellPromptsAgain` | OperatingSystem/virtualization/unix-shell/sh-xv6.c:182-199 | Until then the shell can always come back to its prompt. |
| `ShellSession.RunKeepsInv` | OperatingSystem/virtualization/unix-shell/sh-xv6.c:101-198 | The invariant of descriptors, places, families, territories and pipes holds in every state of every run. |
| `ShellSession.StepKeepsInv` | OperatingSystem/virtualization/unix-shell/sh-xv6.c:101-198 | Every system call of every process keeps the invariant, also when it fails. |
| `ShellSession.StepFamily` | OperatingSystem/virtualization/unix-shell/sh-xv6.c:130-163 | Who is whose child after each system call: only a background node forks right before exit. |
| `ShellSession.StepTerritory` | OperatingSystem/virtualization/unix-shell/sh-xv6.c:112-163 | Processes never share nodes that are still to be run: a fork splits what its parent had to run. |
| `ShellSession.ForegroundIsHeldByShell` | OperatingSystem/virtualization/unix-shell/sh-xv6.c:187-198 | A foreground process leads by parents that wait for it up to the shell. |
| `ShellSession.LeftIsHeldByList` | OperatingSystem/virtualization/unix-shell/sh-xv6.c:130-134 | A foreground process in the left side of a list leads up to the process that waits at the list. |
| `ShellSession.IoPipesEnclose` | OperatingSystem/virtualization/unix-shell/sh-xv6.c:120-157 | The pipe ends that standard input and output denote come from nodes that enclose the command, on the right and left side. |
| `ShellRunTheorems.StepFds` | OperatingSystem/virtualization/unix-shell/sh-xv6.c:112-168 | Each system call keeps descriptors as the position in the tree calls for, for the caller and for a forked child. |
| `ShellRunTheorems.StepPlace` | OperatingSystem/virtualization/unix-shell/sh-xv6.c:112-168 | Each system call keeps every process at a node of the right kind, with the children it forked for that node. |
| `ShellRunTheorems.PipeCallFds` | OperatingSystem/virtualization/unix-shell/sh-xv6.c:139-139 | pipe() puts its ends on descriptors 3 and 4. |
| `ShellRunTheorems.DupFds` | OperatingSystem/virtualization/unix-shell/sh-xv6.c:141-150 | The dup after closing 1 or 0 lands on exactly that descriptor. |
| `ShellRunTheorems.KidFdsStep` | OperatingSystem/virtualization/unix-shell/sh-xv6.c:141-152 | Each of the four calls of a pipe child brings its descriptors one step nearer to exactly 0, 1 and 2 with the pipe end in place. |
| `ShellRunTheorems.StageFdsStep` | OperatingSystem/virtualization/unix-shell/sh-xv6.c:139-157 | The process of a pipe node has both ends until it closes them, and exactly 0, 1 and 2 when it waits. |
| `ShellRunTheorems.RedirFds` | OperatingSystem/virtualization/unix-shell/sh-xv6.c:120-127 | The open after the close lands on the closed descriptor. |
| `ShellRunTheorems.LastWait` | OperatingSystem/virtualization/unix-shell/sh-xv6.c:130-157 | A wait for the last child leaves none. |
| `ShellRunTheorems.ProcInvStable` | OperatingSystem/virtualization/unix-shell/sh-xv6.c:101-198 | Later lines and pipes change nothing for what is already running. |
| `ModelChecker.CheckBfs` | OperatingSystem/concurrency/model-checker.py:124-137 | At the end every vertex is a reachable state stored with a trace that leads to it, each found from the initial state by single steps from states found before it; each was expanded once, and the edges are all their transitions in order. If names stand for behaviour the vertices are all reachable states, each with a shortest trace. It ends if the reachable names are finite. |
| `ModelChecker.HiddenStateIsMissed` | OperatingSystem/concurrency/model-checker.py:92-137 | On a class whose thread has state that names do not show, every possible result of the search has one vertex, and a reachable state is missing. |
| `ModelChecker.SearchTwoRounds` | OperatingSystem/concurrency/model-checker.py:124-137 | The search run on that class returns one vertex. |
| `ModelChecker.Expand` | OperatingSystem/concurrency/model-checker.py:131-137 | One round: all threads of one vertex, in thread order, each with its edge; the vertices only grow. |
| `ModelChecker.Visit` | OperatingSystem/concurrency/model-checker.py:133-137 | One thread of one vertex: its successor is added to vertices and queue if its name is new, and otherwise nothing is added. |
| `ModelChecker.Execute` | OperatingSystem/concurrency/model-checker.py:57-86 | Replaying the trace through the threads gives the state the trace means, with indices as Python reads them; finished threads are skipped, and an index out of range raises. |
| `ModelChecker.ChoiceResumesThread` | OperatingSystem/concurrency/model-checker.py:74-82 | A choice resumes the thread of that number with its own local state, unless it has returned, and moves no other thread. |
| `ModelChecker.NegativeChoice` | OperatingSystem/concurrency/model-checker.py:74-82 | A negative choice counts from the last thread back: -1 is the last one. |
| `ModelChecker.EdgesAreTransitions` | OperatingSystem/concurrency/model-checker.py:132-137 | The edges are, state by state in order of expansion and thread by thread, from the state to where that thread takes it. |
| `ModelChecker.EveryTraceIsFound` | OperatingSystem/concurrency/model-checker.py:124-137 | Once every vertex is expanded, every trace leads to a vertex with a trace that is no longer. |
| `ModelChecker.EndRound` | OperatingSystem/concurrency/model-checker.py:130-137 | After a round the queue is what was found and not expanded, in order of discovery. |
| `ModelChecker.AddState` | OperatingSystem/concurrency/model-checker.py:134-136 | A state with a new name joins the vertices and keeps one vertex per name. |
| `ModelChecker.AddDiscovered` | OperatingSystem/concurrency/model-checker.py:133-136 | A state added was reached by one step from a state found before. |
| `ModelChecker.AddLevel` | OperatingSystem/concurrency/model-checker.py:130-136 | Discovery goes by trace length, at most one level ahead. |
| `RacyCounter.FinalSums` | OperatingSystem/concurrency/why-we-need-locks/sum.cpp:7-16 | For any T threads and N iterations, the final values of complete interleavings of loads and stores are exactly those from the least one (2 for T, N >= 2) to T * N. |
| `RacyCounter.SumIsBounded` | OperatingSystem/concurrency/why-we-need-locks/sum.cpp:7-16 | No interleaving ends outside those bounds. |
| `RacyCounter.LoseExactly` | OperatingSystem/concurrency/why-we-need-locks/sum.cpp:12-15 | For T, N >= 2 and any number w of increments up to T * N - 2 there is a complete run that loses exactly w. |
| `RacyCounter.LoseSingles` | OperatingSystem/concurrency/why-we-need-locks/sum.cpp:12-15 | With one iteration each, any number of increments but the last can be lost. |
| `RacyCounter.AloneLosesNothing` | OperatingSystem/concurrency/why-we-need-locks/sum.cpp:12-15 | A single thread loses nothing. |
| `RacyCounter.RunKeepsInv` | OperatingSystem/concurrency/why-we-need-locks/sum.cpp:12-15 | No value exceeds the stores so far, and none is 0 once its thread has stored. |
| `SpinCounter.MutualExclusion` | OperatingSystem/concurrency/thread-sync.h:8-25 | In every interleaving at most one thread is between spin_lock and spin_unlock, and one is exactly when the lock word is 1. |
| `SpinCounter.NoIncrementLost` | OperatingSystem/concurrency/mutual_exclusion/sum-scalability-spin.c:9-15 | Once all threads have returned, sum is n times their number. |
| `SpinCounter.MainAssertion` | OperatingSystem/concurrency/mutual_exclusion/sum-scalability-spin.c:17-26 | The assertions of create and of main hold exactly if 1 <= nthread <= 64 or nthread < -N; a negative argument starts no thread. |
| `SpinCounter.SomeThreadGetsOn` | OperatingSystem/concurrency/thread-sync.h:15-22 | Unless all have returned, some thread can take a step that is not a failed exchange. |
| `SpinCounter.CanFinish` | OperatingSystem/concurrency/mutual_exclusion/sum-scalability-spin.c:9-15 | From every reachable state all threads can still return. |
| `SpinCounter.RunKeepsInv` | OperatingSystem/concurrency/mutual_exclusion/sum-scalability-spin.c:9-15 | The lock word is the number of threads inside, a loaded value is the current sum, and sum is the number of increments stored. |
| `Brackets.LegalMeansPrefixOfBalanced` | OperatingSystem/concurrency/thread-synchronization/pc.c:1-9 | No prefix leaves the depths 0 to n exactly if the string is a prefix of a balanced bracket string that nests at most n deep. |
| `Brackets.Complete` | OperatingSystem/concurrency/thread-synchronization/pc.c:1-9 | A legal string is completed by closing what it left open. |
| `Brackets.ScanSkipsBalanced` | OperatingSystem/concurrency/thread-synchronization/pc.c:1-9 | A balanced string ends at the depth at which it began. |
| `Semaphores.OutputIsLegal` | OperatingSystem/concurrency/thread-synchronization/pc-sem.c:6-20 | For any number of threads: all output is legal for n, and empty, fill and the threads between P and V always share n units. |
| `Semaphores.OutputsAreTheLegalOnes` | OperatingSystem/concurrency/thread-synchronization/pc-sem.c:6-20 | Whatever the threads, what can be printed is exactly what the specification calls legal, as far as there are threads for its brackets. |
| `Semaphores.NoDeadlock` | OperatingSystem/concurrency/thread-synchronization/pc-sem.c:6-20 | The system can never get stuck exactly if there are a producer, a consumer and n >= 1. |
| `Semaphores.StepKeepsInv` | OperatingSystem/concurrency/thread-synchronization/pc-sem.c:6-20 | Each P, printf and V keeps the units and ties the depth of the output to fill and the threads in flight. |
| `CondVar.OutputIsLegal` | OperatingSystem/concurrency/thread-synchronization/pc-cv.c:8-35 | All output is legal for n (a negative n bounds nothing), and the assertion behind the waiting loop never fails. |
| `CondVar.OutputsAreTheLegalOnes` | OperatingSystem/concurrency/thread-synchronization/pc-cv.c:8-35 | Whatever the threads, what can be printed is exactly what the specification calls legal, as far as there are threads for its brackets. |
| `CondVar.NoLostWakeup` | OperatingSystem/concurrency/thread-synchronization/pc-cv.c:12-19 | Unless a thread is between its change of count and its broadcast, a sleeping producer means count == n and a sleeping consumer count == 0. |
| `CondVar.NoDeadlock` | OperatingSystem/concurrency/thread-synchronization/pc-cv.c:8-35 | The system can never get stuck, even without chance wake-ups, exactly if there are producers, and either consumers and n is not 0 or no consumers and n is negative. |
| `CondVar.KeepsCounted` | OperatingSystem/concurrency/thread-synchronization/pc-cv.c:16-18 | Each step keeps count within its bounds and equal to the depth of the output, up to the bracket not counted yet. |
| `CondVar.KeepsNoneAborted` | OperatingSystem/concurrency/thread-synchronization/pc-cv.c:12-16 | The assertion holds behind the waiting loop. |
| `CondVar.RunOut` | OperatingSystem/concurrency/thread-synchronization/pc-cv.c:8-35 | When the threads are not live, a run leads to where nobody can go on. |
| `Monitor.KeepsLocking` | OperatingSystem/concurrency/thread-synchronization/pc-cv.c:8-35 | Each step keeps the mutex with exactly the thread inside, and what it waited for true from the loop to the last statement. |
| `Monitor.KeepsSleeping` | OperatingSystem/concurrency/thread-synchronization/pc-cv.c:12-19 | Each step keeps the reason of every sleeper, except in the window before a broadcast. |
| `Monitor.AllSleep` | OperatingSystem/concurrency/thread-synchronization/pc-cv.c:10-14 | When nobody is ready, a run puts all threads to sleep. |
| `Monitor.StuckMeansAsleep` | OperatingSystem/concurrency/thread-synchronization/pc-cv.c:8-35 | If no thread can move, all are asleep and none is about to broadcast. |
| `RingBuffer.FirstInFirstOut` | OperatingSystem/concurrency/thread-synchronization/pc.cpp:14-38 | In every run with any threads, what was written is what was printed followed by the live slots from head to rear, at most N - 1 values. |
| `RingBuffer.StepRefinesQueue` | OperatingSystem/concurrency/thread-synchronization/pc.cpp:14-38 | Every step refines a step of a queue of capacity N - 1: the write appends when it is not full, the print takes the first when it is not empty, nothing else touches it. |
| `RingBuffer.NoUnreadSlotIsOverwritten` | OperatingSystem/concurrency/thread-synchronization/pc.cpp:17-20 | A producer past its waiting loop is about to write a slot that holds no unread value. |
| `RingBuffer.HistoriesAreThoseOfAQueue` | OperatingSystem/concurrency/thread-synchronization/pc.cpp:14-38 | Whatever the threads, the possible histories are exactly those of a queue of capacity N - 1 fed by the producers in any order, as far as there are threads for them. |
| `RingBuffer.NoLostWakeup` | OperatingSystem/concurrency/thread-synchronization/pc.cpp:17-32 | Unless a thread is between using its slot and notifying, a sleeping producer means a full buffer and a sleeping consumer an empty one. |
| `RingBuffer.NoDeadlock` | OperatingSystem/concurrency/thread-synchronization/pc.cpp:14-38 | The system can never get stuck, even without chance wake-ups, exactly if there are a producer, a consumer and two slots. |
| `RingBuffer.Buffer.Put` | OperatingSystem/concurrency/thread-synchronization/pc.cpp:20-21 | In place: the contents get the new value at the end. |
| `RingBuffer.Buffer.Get` | OperatingSystem/concurrency/thread-synchronization/pc.cpp:33-34 | In place: the contents lose their first value, which is the one printed. |
| `RingBuffer.Buffer.constructor` | OperatingSystem/concurrency/thread-synchronization/pc.cpp:11-12 | The buffer starts empty. |
| `RingBuffer.Push` | OperatingSystem/concurrency/thread-synchronization/pc.cpp:20-21 | Writing the slot at rear and advancing rear, around the end too, appends to the live slots. |
| `RingBuffer.Pop` | OperatingSystem/concurrency/thread-synchronization/pc.cpp:33-34 | Advancing head, around the end too, drops the first live slot. |
| `RingBuffer.Attains` | OperatingSystem/concurrency/thread-synchronization/pc.cpp:14-38 | Any such history is attained. |
| `RingBuffer.RunOut` | OperatingSystem/concurrency/thread-synchronization/pc.cpp:14-38 | When the threads are not live, a run leads to where nobody can go on. |
| `Philosophers.NoForkIsHeldTwice` | OperatingSystem/concurrency/thread-synchronization/philosopher-bad.c:7-20 | For any N, no fork is ever in two hands. |
| `Philosophers.StuckMeansAllWaitRight` | OperatingSystem/concurrency/thread-synchronization/philosopher-bad.c:7-20 | A reachable state is stuck exactly if every philosopher holds the left fork and waits for the right one. |
| `Philosophers.DeadlockIsAlwaysAhead` | OperatingSystem/concurrency/thread-synchronization/philosopher-bad.c:7-20 | For any N, some run leads from every reachable state, so also from the first, into that deadlock. |
| `Philosophers.CanGoOn` | OperatingSystem/concurrency/thread-synchronization/philosopher-bad.c:7-20 | Unless all wait for the right fork, a philosopher who does not can take a step. |
| `Philosophers.StepKeepsInv` | OperatingSystem/concurrency/thread-synchronization/philosopher-bad.c:11-18 | Each P, printf and V keeps every fork on the table or in exactly one of the two hands that may hold it. |
| `Philosophers.Sides` | OperatingSystem/concurrency/thread-synchronization/philosopher-bad.c:8-9 | lhs and rhs are the fork of the same number and the next one around the table. |
| `HandOff.Semaphore.constructor` | OperatingSystem/concurrency/thread-synchronization/sem.py:2-3 | The tokens given and no waiters. |
| `HandOff.Semaphore.P` | OperatingSystem/concurrency/thread-synchronization/sem.py:5-11 | Takes a token or joins the end of the waiters, and tells which. |
| `HandOff.Semaphore.V` | OperatingSystem/concurrency/thread-synchronization/sem.py:13-17 | Lets the first waiter through or puts a token back. |
| `HandOff.TokensAreConserved` | OperatingSystem/concurrency/thread-synchronization/sem.py:5-33 | For k tokens and any distinct ids: token plus the threads let through is always k, a token means no waiters, and nobody waits twice. |
| `HandOff.LetThroughInOrder` | OperatingSystem/concurrency/thread-synchronization/sem.py:5-33 | The waiter at position i moves up by one with each V and is let through by exactly the (i + 1)-th later V, in every run. |
| `HandOff.AtMostKInside` | OperatingSystem/concurrency/thread-synchronization/sem.py:20-33 | At most k threads are in the critical section. |
| `HandOff.MutualExclusion` | OperatingSystem/concurrency/thread-synchronization/sem.py:20-33 | With the one token of the source, no two threads are in it. |
| `HandOff.SomeThreadGetsOn` | OperatingSystem/concurrency/thread-synchronization/sem.py:20-33 | With a token at all, some thread can take a step that is not a spin, until all are done. |
| `HandOff.CanFinish` | OperatingSystem/concurrency/thread-synchronization/sem.py:20-33 | From every reachable state all threads can still finish, and all k tokens are back then. |
| `HandOff.CompletionNeedsAToken` | OperatingSystem/concurrency/thread-synchronization/sem.py:20-33 | All threads can get done exactly if k >= 1 or there is no thread. |
| `HandOff.StepKeepsInv` | OperatingSystem/concurrency/thread-synchronization/sem.py:5-33 | Each statement keeps tokens, waiters and threads past P in balance. |
| `HandOff.NoSecondP` | OperatingSystem/concurrency/thread-synchronization/sem.py:20-25 | A waiting thread has called P and does not call it again. |
| `GreenThreads.Runtime.constructor` | Rustaceans/Sundry/Asynchronization/green-thread-explained/src/main.rs:63-80 | Thread 0 running and current, threads 1 to 3 available. |
| `GreenThreads.Runtime.Yield` | Rustaceans/Sundry/Asynchronization/green-thread-explained/src/main.rs:98-126 | The search loop finds the first Ready thread from the current one on, or fails and changes nothing; the two states and `current` change as specified. |
| `GreenThreads.Runtime.Spawn` | Rustaceans/Sundry/Asynchronization/green-thread-explained/src/main.rs:128-141 | The first Available thread becomes Ready, or the call panics. |
| `GreenThreads.YieldPicksFirstReady` | Rustaceans/Sundry/Asynchronization/green-thread-explained/src/main.rs:98-126 | With one thread running: a yield fails exactly if none is Ready; otherwise the cyclically first Ready thread runs, the old one is Ready, and the others are as they were. |
| `GreenThreads.SpawnTakesFirstAvailable` | Rustaceans/Sundry/Asynchronization/green-thread-explained/src/main.rs:128-141 | A spawn panics exactly if no thread is Available, and changes the first Available one only. |
| `GreenThreads.StepKeepsOneRunning` | Rustaceans/Sundry/Asynchronization/green-thread-explained/src/main.rs:98-141 | Spawns and yields keep exactly one thread running, the current one. |
| `GreenThreads.Run` | Rustaceans/Sundry/Asynchronization/green-thread-explained/src/main.rs:92-141 | The same after every run of spawns and yields. |
| `GreenThreads.InitialRuns` | Rustaceans/Sundry/Asynchronization/green-thread-explained/src/main.rs:63-80 | The same at the start. |
| `GreenThreads.ThreeSpawnsFromTheStart` | Rustaceans/Sundry/Asynchronization/green-thread-explained/src/main.rs:63-80 | From the start, with any yields in between, exactly the first three spawns succeed; they put threads 1, 2 and 3 to use in this order, all Ready but for the one that runs, and a fourth panics. |
| `GreenThreads.NothingToYieldTo` | Rustaceans/Sundry/Asynchronization/green-thread-explained/src/main.rs:92-109 | At the start a yield fails, so `run` ends. |
| `GreenThreads.ReadyComesNearer` | Rustaceans/Sundry/Asynchronization/green-thread-explained/src/main.rs:98-141 | A Ready thread stays Ready until it runs, and every yield brings it nearer. |
| `GreenThreads.WaitsAtMostItsDistance` | Rustaceans/Sundry/Asynchronization/green-thread-explained/src/main.rs:98-126 | A Ready thread that is d places behind, so at most the number of threads less one, runs within the next d successful yields, whatever is spawned meanwhile. |
| `BootLoader.Machine.ReadDisk` | OperatingSystem/virtualization/ELF/bootmain.c:12-24 | The 128 words of the sector go to the 512 bytes at `buf` and nowhere else. |
| `BootLoader.Machine.CopyFromDisk` | OperatingSystem/virtualization/ELF/bootmain.c:26-32 | The loop over the sectors, with 32-bit addresses and sector numbers, leaves the specified memory. |
| `BootLoader.Machine.LoadProgram` | OperatingSystem/virtualization/ELF/bootmain.c:34-40 | The copy, then the zeroes from filesz to memsz. |
| `BootLoader.Machine.ZeroBss` | OperatingSystem/virtualization/ELF/bootmain.c:36-39 | The loop zeroes as many bytes as it takes to count from filesz to memsz, around 32 bits if need be. |
| `BootLoader.Machine.LoadElf` | OperatingSystem/virtualization/ELF/bootmain.c:42-64 | Loads header after header, each read from the memory as it is then, for either word size. |
| `BootLoader.Machine.LoadKernel` | OperatingSystem/virtualization/ELF/bootmain.c:66-91 | Arguments, header page, then all segments of the word size that e_machine calls for, unless on an application processor; returns the entry address. |
| `BootLoader.CopyEndsExactly` | OperatingSystem/virtualization/ELF/bootmain.c:26-32 | The copying loop ends exactly if its end is not in the last sector of the memory. |
| `BootLoader.ReachesLastSector` | OperatingSystem/virtualization/ELF/bootmain.c:30-31 | The loop gets to the last sector if it is not stopped before. |
| `BootLoader.CopySectorsBytes` | OperatingSystem/virtualization/ELF/bootmain.c:26-32 | Each byte after a copy: the disk's bytes in order over all the sectors that the range touches, everything else unchanged. |
| `BootLoader.LoadedByte` | OperatingSystem/virtualization/ELF/bootmain.c:34-40 | Each byte after load_program when nothing wraps: bss zero, file sectors from that of the offset on, everything else unchanged. |
| `BootLoader.CongruenceDecides` | OperatingSystem/virtualization/ELF/bootmain.c:26-40 | The bytes of a segment arrive at their addresses whatever is on the disk exactly if paddr and offset are congruent modulo 512. |
| `BootLoader.LoadedInPlace` | OperatingSystem/virtualization/ELF/bootmain.c:34-40 | Then file bytes are at [paddr, paddr + filesz) and zeroes up to paddr + memsz. |
| `BootLoader.LoadedElsewhere` | OperatingSystem/virtualization/ELF/bootmain.c:34-40 | Nothing changes outside the rounded range. |
| `BootLoader.AllSegmentsInPlace` | OperatingSystem/virtualization/ELF/bootmain.c:42-64 | If the header table is in its page, nothing wraps and no segment touches the page, loading ends with the page and everything untouched as it was, though headers are read while memory is overwritten, and with every segment in place if all sources are right. |
| `BootLoader.SegmentsInPlaceExactly` | OperatingSystem/virtualization/ELF/bootmain.c:42-64 | Under the same condition the segments end up in place, whatever is on the disk, exactly if for each of their bytes the last segment that touches it puts the right one there; this is decided by the program headers. |
| `BootLoader.SeparateIsRight` | OperatingSystem/virtualization/ELF/bootmain.c:42-64 | It holds if paddr and offset are congruent modulo 512 and no rounded range touches an earlier segment. |
| `BootLoader.FinalBytes` | OperatingSystem/virtualization/ELF/bootmain.c:42-64 | Every byte of the final memory: from the last segment that touches it, or as before. |
| `BootLoader.SameHeaderReads` | OperatingSystem/virtualization/ELF/bootmain.c:42-64 | What is read from an unchanged header page does not change. |
| `BootLoader.KernelInPlace` | OperatingSystem/virtualization/ELF/bootmain.c:66-81 | From any memory, if no segment touches the header page: the first page of the file at 0x8000, the arguments where nothing covers them, and the segments of the file in place if all sources are right. |
| `ElfFile.ElfFileIsLoaded` | OperatingSystem/virtualization/ELF/bootmain.c:42-91 | From the bytes of a file to memory: if a file starts with an ELF header, has its program headers in the first page, and its segments are plain, congruent and apart, load_kernel puts every segment of the program headers at its address with zeroes behind, whatever was in memory, and jumps to the entry point of the header. |
| `ElfFile.ProgramHeaderIsRead` | OperatingSystem/virtualization/ELF/bootmain.c:42-64 | Round trip: of a program header written field by field in the order of Elf32_Phdr or Elf64_Phdr, exactly p_filesz, p_memsz, p_paddr and p_offset are read back, cut to 32 bits. |
| `ElfFile.FileHeaderIsRead` | OperatingSystem/virtualization/ELF/bootmain.c:66-90 | Round trip: e_phoff, e_phnum and e_entry of a file header are read back, and the 64-bit layout is taken exactly if e_machine is EM_X86_64. |
| `ElfFile.HeadersAreRead` | OperatingSystem/virtualization/ELF/bootmain.c:42-64 | Header by header, the segments loaded are those of the table. |
| `BootLoader.HeaderAndArguments` | OperatingSystem/virtualization/ELF/bootmain.c:72-76 | Sectors 1 and 2 go to the argument area and the first page of the file to 0x8000. |
| `ProcessStack.Loader.LayOut` | OperatingSystem/virtualization/ELF/loader-static.c:45-64 | All pushes stay in the stack, sp_exec is the specified multiple of 16, and a reader after the ABI that starts there finds argc, argv, exactly the entries of the environment that have no underscore, in order, and both auxiliary entries. |
| `ProcessStack.Loader.Push` | OperatingSystem/virtualization/ELF/loader-static.c:14-14 | Eight bytes are stored at sp, and sp advances. |
| `ProcessStack.Loader.PushArgv` | OperatingSystem/virtualization/ELF/loader-static.c:50-55 | argc, then the pointers with their null. |
| `ProcessStack.Loader.PushEnvp` | OperatingSystem/virtualization/ELF/loader-static.c:57-60 | The environment pointers whose strings have no underscore, in order. |
| `ProcessStack.Loader.PushAuxv` | OperatingSystem/virtualization/ELF/loader-static.c:62-64 | The null, AT_RANDOM and AT_NULL. |
| `ProcessStack.ReadsImage` | OperatingSystem/virtualization/ELF/loader-static.c:50-64 | The reader of section 3.4.1 of the System V AMD64 ABI recovers what was laid out. |
| `ProcessStack.KeptExactly` | OperatingSystem/virtualization/ELF/loader-static.c:57-60 | The environment kept is exactly the entries whose text has no underscore, in order. |
| `ProcessStack.FitsExactly` | OperatingSystem/virtualization/ELF/loader-static.c:45-64 | Everything fits exactly if argc plus the kept entries are at most 505, or 506 on a base that is off a multiple of 16 by a word. |
| `ProcessStack.PutAllHasWords` | OperatingSystem/virtualization/ELF/loader-static.c:14-14 | Words pushed one after the other are all there at the end, and nothing outside them changed. |
| `ProcessStack.GetPut` | OperatingSystem/virtualization/ELF/loader-static.c:14-14 | A stored word is read back, and others are not disturbed. |
| `LittleEndian.NumberOfBytes` | OperatingSystem/virtualization/ELF/loader-static.c:14-14 | Little-endian bytes of a 64-bit value give the value back. |

## Left out

- Shell: `cd`, reading a line into its 100 bytes, and messages; a session reads any sequence of trees or panicking lines.
- Shell: process numbers are never reused, and the shell is not process 1, so orphans do not become its children.
- Shell: the file system; a successful open gives a descriptor that remembers its name and mode. The programs themselves do one step, exit.
- Shell: the exec node that `cmd` points to while `ret` is wrapped is a value; `AddArg` reaches it through the redirections. Sizes of nodes are those of a 64-bit machine; words after the last argv slot are zero as in fresh static memory.
- Concurrent protocols: memory is sequentially consistent, `int` does not overflow, and no fairness is assumed; progress is stated as the absence of stuck states, or as the possibility to finish.
- Concurrent protocols: the mutex version `pc.c` itself (a retry loop around the same counter), and what the philosophers print.
- `philosopher.c`, `pc-cv-bad.c`, `pc-cv.py`, `sum-atomic.c`: broken, or broken on purpose.
- `pc-cv.c`, `pc.cpp`: that a woken thread is scheduled in any order is modelled; priorities and timed waits are not used there.
- CheckBfs: that no state is missed is stated under the assumption that states with equal names have successors with equal names (HiddenStateIsMissed shows a class without it), and termination for finitely many reachable names. The source names a state by a hash of its frozen attributes and local variables, which neither sees everything in a suspended thread nor excludes collisions.
- The model checker: the rewriting of a class that adds yield points, and `serialize`; a class is its initial state and a function that runs one thread to its next yield.
- GreenThreads: contexts, stacks and the switch itself; `run` is the loop of yields, and a thread that returns goes on as the source leaves it, since `guard` is empty.
- Machine.CopyFromDisk: requires that the end is not in the last sector of the memory, because the source then never returns (CopyEndsExactly). LoadElf and LoadKernel require the same of every copy they make.
- ElfFileIsLoaded: for segments that keep apart; what becomes of overlapping ones SegmentsInPlaceExactly says.
- AllSegmentsInPlace, SegmentsInPlaceExactly, KernelInPlace: a segment that touches the header page, and so changes the headers still to be read, is covered by LoadElf only.
- BootLoader: the ports of the disk controller; a sector number stands for what the controller returns for it. The jump to the kernel is the returned address.
- ProcessStack: mapping and protecting the segments of the program, and the jump; the bytes of `rnd` are any address. The macro `push` of a 16-byte auxiliary entry is two pushes of a word.
- Loader.LayOut: requires that the words fit (FitsExactly says when); the source writes past its array otherwise.
- Sockets, polling, signals, other Rust notes and data-structure exercises of the repository.
