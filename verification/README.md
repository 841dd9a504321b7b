# Verified model of the configuration compiler, the tool gateway and their guards

The program keeps one manifest of tool servers and compiles it into the native
configuration of many command-line agents, reads such configurations back, and
runs a gateway that dispatches tool calls to the servers under a trust check and
a policy. This project models the parts of it where correctness spans several
functions or a whole run, and proves what those parts are for.

- `Text`, `Json`: strings and ordered tables shared by the rest.
- `Shell`, `ToolManaged`: the `sh -c "cd DIR && exec CMD ARGS..."` wrapper, the
  importer's word splitter, and the application-bundle classification on top of it.
- `Refs`, `Render`, `Meaning`, `Expansion`, `Import`: the `${NAME}` scanner with its
  four result channels, the compiler of a server into a native entry, what the entry
  launches, also after a target has expanded references itself, and the importer
  with both round trips.
- `Namespace`, `Gateway`, `GatewayProgress`, `GatewayServer`: tool names, the gateway
  as a state machine over interleaved steps of calls and discoveries mixed with
  outside trust changes, its freedom from deadlock, and the object whose
  uninterrupted methods are runs of that machine.
- `Masker`, `Regions`, `Lines`, `Items`, `Extents`, `Diff`, `Classifier`, `Gate`,
  `GateItems`, `GateLimits`: the Rust masker, the `#[cfg(test)]` region finder, the two
  ways to count lines, how far an attributed item reaches in token trees and where the
  scan stops in it, the diff classifier, the enforcement gate end to end, and inputs
  on which it falls short.
- `Headless`: command-line templates, what their validation accepts and the
  shape of every argument vector built from them.
- `FsClone`: the directory copy with a clone fast path, and the loop it stands in for.
- `Executable`, `Pins`: which declared strings are project files, and how locking
  and verifying them agree.
- `Redaction`: credentials replaced by references on intake.
- `Execution`: a governed execution as stages with an event log.

Where the source changes things step by step the model is a method with the same
loop, or a class with the same fields, proved against a specification function;
the properties are lemmas about those functions. Strings are sequences of
characters; byte limits go through a UTF-8 length. Filesystems, upstream
replies, trust verdicts and stage outcomes are parameters, so every statement
holds for all of them.

## Where the code and its words differ

The model follows the code. Each difference has a lemma.

- The renderer says it lists each reference once; `dedup` drops only a repeat of
  its neighbour (`Render.DedupIsDistinct`, `Render.DedupKeepsDistantRepeats`).
- The word bound is 256, but the early return skips the final cut, so a word and
  the separator that ended it can leave 257 (`Shell.OverlongKeeps257`, and
  `Shell.SplitWordsExactly` for when).
- On an adapter that maps a command and neither an args key nor a combined array,
  the wrapper's script has nowhere to go (`Meaning.WrapPreservesLaunch`); without
  a rewrite the arguments are lost there (`Meaning.PlainPreservesLaunch`).
- A combined command array is written but not read back
  (`Import.CommandArrayImport`).
- Empty arrays and tables, ill-typed fields and a tag spelled differently do not
  survive an import and a re-render (`Import.RenderAfterImport`).
- A tool without a name is checked by policy as `""` and listed as `tool`
  (`Gateway.NamelessToolListedButDenied`).
- The selection charset permits `-`, so a value of dashes can complete a `--`
  in the options region (`Headless.SelectionTerminatorExactly`,
  `Headless.DashValueEndsOptions`, `Headless.LaunchIsGuarded`).
- The gate is to fail toward firing, yet these inputs silence a production change.
  - An added line whose own text starts with `++` reads as a file header and is
    neither recorded nor counted (`Classifier.PlusPlusLineIsSkipped`).
  - Lines are split at every line end Python knows, while `git` counts newlines, so a
    form feed shifts the numbers of an image (`GateLimits.FormFeedExempts`) and hides
    an added line of a diff (`GateLimits.FormFeedHidesAddition`).
  - An attribute line is looked for in the raw text, so one inside a comment exempts
    the next item (`GateLimits.CommentedAttributeExempts`).
  - An attribute before a field, a variant or a match arm exempts what comes after it:
    the scan does not stop at a comma (`GateItems.VariantExemptsNext`), nor at the
    brace that closes the block around (`GateItems.FieldExemptsNext`, and
    `Items.LeavesBlockExactly` and `Items.StaysExactly` for when).
  - A path that holds the mark between the paths of a header, that has to be quoted,
    or that is no longer watched, is not read (`GateLimits.MarkInPathIsNotRead`,
    `GateLimits.QuotedPathIsNotRead`, `GateLimits.MovedOutIsNotRead`, and
    `Diff.HeaderReads` for when a header is read right).
  - A line that opens with `*`, or with a closed comment, counts as a comment
    (`GateLimits.StarredCodeIsIgnored`).

  Where none of these is met the numbers and the regions are right
  (`Gate.NumbersAreGits`, `Gate.RegionsAreReal`), and a substantive changed line that
  no test item reaches lists its file (`Gate.ProductionAdditionIsListed`,
  `Gate.ProductionRemovalIsListed`).
- A semicolon or a block inside the brackets of a test item's head ends its region
  early, so the rest of the item still fires (`Items.EndsExactly`).
- A reference name reads like the key it stands for, but keys that differ in case or
  punctuation share one (`Redaction.NamesCollideExactly`).
- On an adapter that leaves references to the target, the wrapper quotes the
  unexpanded text, so a single quote in a value breaks out of it
  (`Expansion.QuoteInDirectoryBreaksWrap`, and
  `Expansion.PassthroughWrapPreservesLaunch` for when the launch is kept).
- The clone is to leave what the loop leaves, but the scan masks directory modes to
  nine bits (`FsClone.StickyPasses`, and `FsClone.SameTreeExactly` for when they agree).
- Wrapping the command `exec`, or a shell, can change an import classification
  (`ToolManaged.WrappingExecChangesClassification`, and
  `ToolManaged.WrappingKeepsClassification` for all commands).

## Model

| member | source | states |
|---|---|---|
| `Shell.PosixShellQuote` | crates/adapters/src/render.rs:257-269 | The pushing loop yields the quoted form that `Shell.QuoteReads` proves to read back as the string, for any characters |
| `Shell.BuildWrapper` | crates/adapters/src/render.rs:157-165 | The script the renderer assembles, argument by argument, is the wrapper whose reading `Shell.WrapperRoundTrip` gives |
| `Shell.QuoteReads` | crates/adapters/src/render.rs:252-269 | A quoted string met outside quotes adds exactly that string to the word under construction and leaves the reader outside quotes, whatever the string and whatever follows |
| `Shell.ReadSingle` | crates/adapters/src/import.rs:362-370 | The single-quote loop takes everything up to the next quote, or to the end when none closes |
| `Shell.ReadDouble` | crates/adapters/src/import.rs:371-384 | The double-quote loop ends at an unescaped quote; a backslash always escapes the next character |
| `Shell.ReadOperator` | crates/adapters/src/import.rs:391-402 | The peek loop gathers the whole run of one operator character |
| `Shell.SplitScript` | crates/adapters/src/import.rs:341-409 | The one-pass splitter with its buffers and flags computes the bounded reading, early return included |
| `Shell.SplitWordsCut` | crates/adapters/src/import.rs:355-409 | For every script the result is a prefix of the unbounded reading: all of it up to 256 words, else 256 or 257, and a 257th word is the separator that ended the 256th |
| `Shell.SplitWordsExactly` | crates/adapters/src/import.rs:357-409 | How many words are kept, exactly: all up to 256; else 256, and 257 if and only if the reader, with 255 words out and one pending, meets an operator with characters left behind its run |
| `Shell.OverlongKeeps257` | crates/adapters/src/import.rs:357-360 | A script of 255 short words, a word that runs into `&`, and one more character keeps 257 words |
| `Shell.WrapperReads` | crates/adapters/src/render.rs:150-192 | The unbounded reading of every wrapper is `cd`, the directory, the separator `&&`, `exec`, the command and the arguments, with no other separator |
| `Shell.WrapperRoundTrip` | crates/adapters/src/import.rs:341-409 | Splitting any generated wrapper gives those words back, cut to the first 256 when there are more |
| `Shell.WrapperLaunches` | crates/adapters/src/render.rs:150-165 | Read as `cd DIR && exec PROGRAM ARGS`, the wrapper launches the wrapped command with its arguments in the wrapped directory |
| `ToolManaged.ProgramWords` | crates/adapters/src/import.rs:414-431 | The one-flag pass collects the first word, each word after a separator and the word after `exec` |
| `ToolManaged.WrappedClassification` | crates/adapters/src/import.rs:237-324 | A wrapped entry is classified by the program words of its own command line, or not at all when the script exceeds 4096 bytes |
| `ToolManaged.WrappedIsFirstNonExec` | crates/adapters/src/import.rs:414-431 | In closed form, for every command: a wrapped entry is classified by the first word of its kept command line that is not `exec` |
| `ToolManaged.WrappingKeepsClassification` | crates/adapters/src/import.rs:237-324 | For every command, shells and `exec` included, wrapping keeps the classification if and only if a condition on the command line holds; for a command that is neither, the script is short enough or the command is in no bundle |
| `ToolManaged.WrappingExecChangesClassification` | crates/adapters/src/import.rs:414-431 | An input that fails: the command `exec` with a bundle path as its argument |
| `Refs.ScanHead` | crates/adapters/src/render.rs:381-415 | One turn of the scanning loop consumes one segment and leaves one record for a reference, none for text |
| `Refs.SubstituteWith` | crates/adapters/src/render.rs:364-422 | The scanner, with its passthrough and no-opener shortcuts, produces the rendering and the records of the left-to-right segmentation |
| `Refs.NoOpenerIsText` | crates/adapters/src/render.rs:372-377 | On a string without `${` the shortcut and the loop agree: output is the input and nothing is recorded |
| `Refs.SegmentsSpell` | crates/adapters/src/render.rs:381-415 | The segmentation spelled out again is the input, so no character is lost or read twice |
| `Refs.OneRecordEach` | crates/adapters/src/render.rs:391-409 | The four channels together hold exactly one record per reference |
| `Refs.ChannelsAreFilters` | crates/adapters/src/render.rs:391-409 | Each channel is the sub-list of the references with its lookup outcome, in order, with the right detail |
| `Refs.UnresolvedIsUnchanged` | crates/adapters/src/render.rs:364-422 | When no reference resolves the output is the input and no secret is recorded |
| `Refs.RefsIn` | crates/core/src/refs.rs:22-43 | The manifest's own scanner lists exactly the references that substitution looks up, in the same order |
| `Render.SubstituteValue` | crates/adapters/src/render.rs:271-327 | The structural recursion substitutes every string leaf and records the leaves in order |
| `Render.SubstituteTable` | crates/adapters/src/render.rs:194-214 | A string table keeps its keys and order, every value substituted and recorded in order |
| `Render.WriteText` | crates/adapters/src/render.rs:100-103 | Writing a text under a mapped field changes that key only |
| `Render.RenderCommand` | crates/adapters/src/render.rs:105-132 | The command, as one combined array or as a string and an args array, over what was there, with the resolved pieces kept for the wrapper |
| `Render.RenderCwd` | crates/adapters/src/render.rs:134-192 | The directory goes to the native key, or command and args are rewritten into the wrapper, for stdio servers only |
| `Render.WriteExtras` | crates/adapters/src/render.rs:216-234 | The extras loop overrides every key it names and no other |
| `Render.RenderBody` | crates/adapters/src/render.rs:85-234 | All seven steps: each key holds what the last step to write it put there, and the records are those of all scanned texts in order |
| `Render.RenderServer` | crates/adapters/src/render.rs:41-250 | The whole compilation: entry, de-duplicated channels and the representable verdict; nothing without an MCP section |
| `Render.TextsInOrder` | crates/adapters/src/render.rs:85-234 | Threading the channels through the seven steps records the texts in source order |
| `Render.DedupKeeps` | crates/adapters/src/render.rs:236-240 | De-duplicating a list of whole values keeps every element and the first one, and leaves no two equal neighbours |
| `Render.DedupIsDistinct` | crates/adapters/src/render.rs:236-240 | For the unresolved and secret channels: each element is listed once if and only if equal elements stood next to each other |
| `Render.DedupKeepsDistantRepeats` | crates/adapters/src/render.rs:236-240 | A reference that returns after another one is listed twice |
| `Render.DedupedNames` | crates/adapters/src/render.rs:238-239 | In the failed and denied channels the names are de-duplicated like any other list |
| `Render.DedupByNameIsDistinct` | crates/adapters/src/render.rs:238-239 | There each name is listed once if and only if its repeats stood next to each other |
| `Render.DedupByNameKeepsFirst` | crates/adapters/src/render.rs:238-239 | And of every run of a name exactly its first reason stays |
| `Meaning.WrapPreservesLaunch` | crates/adapters/src/render.rs:150-192 | For a wrapped server, reading the entry as `sh -c` gives the directory and argv the manifest spells, references that are left to the target compared as they stand, if and only if the adapter has a combined array or an args key |
| `Meaning.PlainPreservesLaunch` | crates/adapters/src/render.rs:105-148 | Without a rewrite the entry launches what the manifest asks for if and only if the adapter can hold its arguments |
| `Expansion.ExpandJoin` | crates/adapters/src/render.rs:381-415 | No reference crosses a character that can be part of none, so texts joined at one expand piece by piece |
| `Expansion.QuotesAdded` | crates/adapters/src/render.rs:381-415 | Expanding a text never loses a single quote, and adds none if and only if no value put for a reference holds one |
| `Expansion.ReadSpends` | crates/adapters/src/import.rs:341-409 | What the reader can emit at most, for every script: no double quote is made, and where none is used up, every single quote or backslash it emits costs a backslash of the script |
| `Expansion.ExpandedLaunchExactly` | crates/adapters/src/render.rs:150-165 | A wrapper whose references are expanded inside its quotes launches the expanded directory, command and arguments if and only if no value put for a reference holds a single quote |
| `Expansion.PassthroughWrapPreservesLaunch` | crates/adapters/src/render.rs:134-192 | On an adapter that leaves references to the target, for any values there, the entry launches what the manifest asks for if and only if the script has somewhere to go and none of those values holds a single quote |
| `Expansion.QuoteInDirectoryBreaksWrap` | crates/adapters/src/descriptor.rs:937-938 | An input that fails: a directory given by a reference whose value holds a single quote, on an entry that spells the manifest's launch |
| `Import.ImportEntry` | crates/adapters/src/import.rs:67-168 | One entry is imported or skipped with its reason |
| `Import.ExtractServers` | crates/adapters/src/import.rs:53-171 | The import loop: every entry of the section lands in exactly one of the two lists, in order |
| `Import.CommandArrayImport` | crates/adapters/src/import.rs:90-125 | An entry written as one combined array is read back without command and arguments, and is skipped if and only if the adapter maps no url or the server has none |
| `Import.ReadBack` | crates/adapters/src/import.rs:78-171 | Each canonical field of a rendered entry reads back as the server's own, when no reference in its own texts resolves |
| `Import.ReadBackTables` | crates/adapters/src/import.rs:78-171 | The header and environment tables of a rendered entry read back whole and in order |
| `Import.ReadBackExtras` | crates/adapters/src/import.rs:140-165 | The keys the adapter does not know come back as this adapter's extras and nothing else does |
| `Import.TypeRoundTrip` | crates/adapters/src/import.rs:435-456 | The inferred transport is the manifest's if and only if the tag tells, or the fields do |
| `Import.ImportAfterRender` | crates/adapters/src/import.rs:53-171 | Importing a rendered entry gives the server's canonical fields and this adapter's extras, on every adapter, when no reference in the server's own texts resolves; an entry with neither url nor readable command is skipped |
| `Import.WrappedImport` | crates/adapters/src/import.rs:92-115 | A wrapped server comes back as `sh` with `-c` and the generated script |
| `Import.WrappedImportClassification` | crates/adapters/src/import.rs:92-115 | Rendered with a wrapper and imported, a server is classified as its own command line is if and only if wrapping that command line keeps its classification |
| `Import.RenderAfterImport` | crates/adapters/src/render.rs:85-234 | Rendering an imported entry gives the entry back, unknown keys included, if and only if it was well typed, on every adapter, when no reference in the imported texts resolves |
| `Import.ImportedTextsAreLeaves` | crates/adapters/src/render.rs:85-234 | The texts scanned for an imported entry are all strings of the entry itself |
| `Namespace.SplitQualified` | crates/cli/src/gateway.rs:1052-1053 | Splitting `server__tool` at the first `__` gives both back, for every tool, if and only if the server name has no `__` and does not end in `_` |
| `Gateway.FilterTools` | crates/cli/src/gateway.rs:995-1013 | The listing loop keeps the permitted, well-named tools in order under their qualified names |
| `Gateway.VisibleIsPermitted` | crates/cli/src/gateway.rs:995-1013 | Nothing listed is denied by policy or hostile in name |
| `Gateway.VisibleIsComplete` | crates/cli/src/gateway.rs:995-1013 | Every permitted tool with a clean name is listed |
| `Gateway.ListedToolRoutes` | crates/cli/src/gateway.rs:1467-1492 | A listed tool dispatches to the upstream that listed it under its own name if and only if that upstream's name is routable |
| `Gateway.ListedToolIsCallable` | crates/cli/src/gateway.rs:1097-1110 | A listed tool that has a name passes the policy check of a call as well |
| `Gateway.NamelessToolListedButDenied` | crates/cli/src/gateway.rs:1002-1003 | A nameless tool can be listed as `tool` and refused when called |
| `Gateway.CallStepEarned` | crates/cli/src/gateway.rs:1045-1158 | Every step of a call leaves its thread where only passed checks could have brought it |
| `Gateway.ListStepEarned` | crates/cli/src/gateway.rs:963-1017 | Every step of a discovery leaves its thread with permitted tools only |
| `Gateway.StepLocks` | crates/cli/src/gateway.rs:274-300 | Every step keeps lock table and threads consistent: a lock is held by exactly the thread it names |
| `Gateway.StepAudit` | crates/cli/src/gateway.rs:1076-1158 | Every step keeps the audit log equal to what the finished calls owe, one row each |
| `Gateway.StepContacts` | crates/cli/src/gateway.rs:137-169 | Every step keeps every contact inside a call or listing that earned it |
| `Gateway.StepInv` | crates/cli/src/gateway.rs:963-1158 | One enabled step of any thread, or a trust change outside, keeps the whole invariant |
| `Gateway.RunInv` | crates/cli/src/gateway.rs:963-1158 | So does every interleaved run |
| `Gateway.EveryRunIsSafe` | crates/cli/src/gateway.rs:963-1158 | In every run from an initial state: calls and listings contact upstreams only after a passed trust check, calls only permitted and resolved ones; an owned finished call has exactly one row with its outcome and every other thread none; everything handed out or cached is permitted, and a list that is not empty went to a thread whose trust check passed; locks exclude |
| `Gateway.DecidedOnce` | crates/cli/src/gateway.rs:1045-1158 | Every run decides each call at most once, by one step, and the call reports what that step decided |
| `Gateway.RowsTellTheTruth` | crates/cli/src/gateway.rs:1076-1158 | In every run a row says `Ok` if and only if the run holds that call's exchange with a live client and an answer, `Error` if and only if a reference was unresolved or that exchange failed, `Denied` if and only if policy denied it, and `TrustRefused` if and only if its trust check was taken where trust did not hold |
| `GatewayProgress.SomeoneCanMove` | crates/cli/src/gateway.rs:274-300 | No deadlock: in every state of every run with an unfinished thread, some unfinished thread can take its next step |
| `GatewayProgress.EveryRunCanEnd` | crates/cli/src/gateway.rs:963-1158 | From every state that the invariant allows some run brings all calls and listings to their end |
| `GatewayProgress.EveryRunExtends` | crates/cli/src/gateway.rs:963-1158 | So every run from an initial state extends to one in which all calls and listings are finished |
| `Gateway.VouchedWasTrusted` | crates/cli/src/gateway.rs:1076-1090 | A passed trust check happened at a moment of the run when the anchor, if any, held |
| `Gateway.CacheSettles` | crates/cli/src/gateway.rs:974-1017 | Once the cache is filled and no discovery is in flight, no run changes it |
| `Gateway.UntrustedListing` | crates/cli/src/gateway.rs:963-981 | In every run, a listing that starts while trust does not hold ends with the empty list, contacts nobody and leaves the cache alone |
| `Gateway.AnswersAreListed` | crates/cli/src/gateway.rs:986-1017 | Under any interleaving, a permitted, cleanly named tool of an upstream that answered a discovery is in that discovery's list from then on |
| `Gateway.ClientsOnlyDieOfTransport` | crates/cli/src/gateway.rs:178-190 | A step drops a client if and only if it is a round trip with that upstream whose transport died |
| `GatewayServer.Dispatcher.constructor` | crates/cli/src/gateway.rs:908-920 | A new gateway stands for an initial state with an empty cache and log |
| `GatewayServer.Dispatcher.EnsureClient` | crates/cli/src/gateway.rs:193-202 | A client is created only when the slot is empty, and no other slot changes |
| `GatewayServer.Dispatcher.DiscardDeadClient` | crates/cli/src/gateway.rs:178-190 | The slot is emptied on a transport failure and kept on a timeout |
| `GatewayServer.Dispatcher.RoundTrip` | crates/cli/src/gateway.rs:203-228 | Connect if needed, ask, drop a dead session |
| `GatewayServer.Dispatcher.Dispatch` | crates/cli/src/gateway.rs:137-169 | An unresolved reference stops the call before any contact; one row either way |
| `GatewayServer.Dispatcher.TryCall` | crates/cli/src/gateway.rs:1045-1158 | The dispatch path ends in the state `GatewayServer.CallIsARun` reaches by legal steps, keeps the invariant, appends exactly one row for an owned name and reports success exactly when that row says so |
| `GatewayServer.Dispatcher.Discover` | crates/cli/src/gateway.rs:986-1014 | The loop over the upstreams collects the visible tools of those that answer |
| `GatewayServer.Dispatcher.FirstDiscovery` | crates/cli/src/gateway.rs:986-1017 | One discovery is published and handed out; its contacts are those its own loop records, one per upstream |
| `GatewayServer.Dispatcher.HandOut` | crates/cli/src/gateway.rs:977-1017 | The three ways a list is handed out leave the state in which the uninterrupted listing of the machine ends |
| `GatewayServer.Dispatcher.NamespacedTools` | crates/cli/src/gateway.rs:963-1017 | The cached list, one discovery, or nothing without trust; always permitted tools only, and a discovery holds exactly the permitted tools of the upstreams that answered |
| `GatewayServer.DiscoveredExactly` | crates/cli/src/gateway.rs:986-1014 | A lone discovery finds a tool if and only if its upstream is reached and answers with it and the tool is permitted and cleanly named |
| `GatewayServer.Dispatcher.Log` | crates/cli/src/gateway.rs:1201-1254 | One audit row is appended and the call is over |
| `GatewayServer.CallIsARun` | crates/cli/src/gateway.rs:1045-1158 | An uninterrupted call is a legal run of the machine with that end state |
| `GatewayServer.ListIsARun` | crates/cli/src/gateway.rs:963-1017 | An uninterrupted listing is a legal run of the machine with its end state |
| `Masker.BlankOut` | tools/check-enforcement-pairing.py:182-185 | The in-place loop turns a stretch of the array into spaces, newlines kept, and touches nothing else |
| `Masker.EndOfComment` | tools/check-enforcement-pairing.py:196-207 | The depth-counting loop stops behind the closer that balances the opener |
| `Masker.EndOfQuote` | tools/check-enforcement-pairing.py:223-232 | The quote loop stops behind the first unescaped quote |
| `Masker.NextToken` | tools/check-enforcement-pairing.py:187-255 | One turn picks the token in the source's order of branches |
| `Masker.Mask` | tools/check-enforcement-pairing.py:169-256 | The array loop, blanking in place, computes the masked text |
| `Masker.MaskLinesUp` | tools/check-enforcement-pairing.py:169-256 | The masked text has the same length, keeps every newline, and changes characters only to spaces |
| `Masker.MaskShowsNoQuote` | tools/check-enforcement-pairing.py:169-256 | No double quote survives |
| `Masker.MaskIdempotent` | tools/check-enforcement-pairing.py:169-256 | Masking a masked text changes nothing |
| `Masker.QuietIsKept` | tools/check-enforcement-pairing.py:169-256 | Text in which nothing opens a comment or literal is kept verbatim |
| `Masker.LiteralIsBlanked` | tools/check-enforcement-pairing.py:221-235 | For every text, the string literal that spells it is one token, blanked whole |
| `Masker.NestedCommentIsBlanked` | tools/check-enforcement-pairing.py:196-210 | A block comment, however deeply nested and with any characters that form no stray comment mark, is one token that ends at its own closer |
| `Masker.RawStringIsBlanked` | tools/check-enforcement-pairing.py:211-220 | A raw string, with or without `b`, with n hashes ends at the first quote with n hashes after it, or at the end of the source when there is none |
| `Masker.CharLiteralIsBlanked` | tools/check-enforcement-pairing.py:238-254 | A character literal, one character or an escape with what its kind takes, is one token, blanked whole |
| `Masker.LifetimeIsKept` | tools/check-enforcement-pairing.py:236-242 | A lifetime is one token that stays visible |
| `Masker.LineCommentIsBlanked` | tools/check-enforcement-pairing.py:189-195 | A line comment is one token up to its newline, or to the end of the source |
| `Masker.CodeShows` | tools/check-enforcement-pairing.py:187-256 | Wherever a token starts, code from there on stands in the masked text character for character, and a token starts behind it |
| `Masker.TokenHides` | tools/check-enforcement-pairing.py:187-256 | A comment or literal that starts there is blank in the masked text up to its end, where the next token starts |
| `Masker.TokenShows` | tools/check-enforcement-pairing.py:187-256 | A visible token that starts there stands unchanged in the masked text |
| `Masker.LiteralHides` | tools/check-enforcement-pairing.py:221-235 | So is every string literal up to its own closing quote; with `Masker.CodeShows`, the code between two literals survives |
| `Regions.ScanLine` | tools/check-enforcement-pairing.py:284-295 | The character loop with its depth and seen flag finds a closing point if and only if the brace and semicolon specification has one on the line |
| `Regions.ClosesInMeans` | tools/check-enforcement-pairing.py:284-295 | A line closes an item exactly when some position is a brace that restores balance or a semicolon before any block |
| `Regions.FindItemEnd` | tools/check-enforcement-pairing.py:279-303 | The walk ends at the first closing line, or reports none |
| `Regions.CollectRanges` | tools/check-enforcement-pairing.py:273-306 | The line loop computes the specified ranges |
| `Regions.CfgTestRanges` | tools/check-enforcement-pairing.py:259-306 | The whole finder, including its answer for a missing image and for lines that do not align |
| `Regions.RangesAreItems` | tools/check-enforcement-pairing.py:259-306 | The ranges are sorted, disjoint and in the file; each starts at an attribute line and ends at the first line that closes its item |
| `Regions.RangesAreComplete` | tools/check-enforcement-pairing.py:259-306 | An attribute line outside every range opens an item that never closes |
| `Regions.MaskedLinesAlign` | tools/check-enforcement-pairing.py:266-271 | When the source breaks lines at newlines only, raw and masked lines correspond one to one and in length |
| `Lines.SameLinesExactly` | tools/check-enforcement-pairing.py:266-267 | Python's line split of a text gives the lines that `git` counts if and only if every line end in it is a newline |
| `Lines.TerminatedSplitsExactly` | tools/check-enforcement-pairing.py:340 | Lines written out with newlines split into those lines again if and only if none of them holds another line end |
| `Lines.SameCountExactly` | tools/check-enforcement-pairing.py:266-267 | The split never makes fewer lines than `git` counts, and as many if and only if no other line end stands before the end of the text |
| `Gate.AttributeShowsExactly` | tools/check-enforcement-pairing.py:169-256 | An attribute in the source shows in the masked text if and only if a token starts at it, so that it stands in no comment and no literal |
| `Gate.VisibleExactly` | tools/check-enforcement-pairing.py:273-277 | A line that opens with the attribute shows it at the same column of the masked line if and only if the attribute is code |
| `Items.OneThing` | tools/check-enforcement-pairing.py:279-295 | A text starts with at most one item or list element, in token trees: where it ends is fixed by the text |
| `Items.LeavesBlockExactly` | tools/check-enforcement-pairing.py:279-303 | The region leaves the block that holds its attribute if and only if the first brace or semicolon behind the attribute is a closing brace |
| `Items.StaysExactly` | tools/check-enforcement-pairing.py:279-303 | The scan stops within the attributed item or list element if and only if that holds a semicolon or a block |
| `Items.EndsExactly` | tools/check-enforcement-pairing.py:279-303 | It stops at the very end of an item that ends with a semicolon or a block if and only if none stands in brackets before |
| `Extents.LineClosesMeans` | tools/check-enforcement-pairing.py:284-295 | A line closes the item if and only if the scan of the text, newlines included, can stop in it |
| `Extents.EndHoldsFirst` | tools/check-enforcement-pairing.py:279-303 | The line an item ends on holds the first character at which the scan of the text behind the attribute stops |
| `Extents.FirstIsEnd` | tools/check-enforcement-pairing.py:279-303 | And the line that holds that character is the line the item ends on |
| `Gate.RegionsAreReal` | tools/check-enforcement-pairing.py:259-306 | When the lines of the image are those of `git`, and every attribute line is code and stands before an item or list element that holds a semicolon or a block, every exempt line is reached by such an item, whose end is told by Rust's token trees and not by the scan |
| `Gate.RealItemsAreRegions` | tools/check-enforcement-pairing.py:259-306 | A whole item that ends with a semicolon or a block, and holds neither in the brackets before, is exempt on every line it reaches, unless it opens inside another region |
| `Gate.ScanStaysExactly` | tools/check-enforcement-pairing.py:279-303 | The scan behind an attribute that is code can stop inside the item or list element there if and only if that holds a semicolon or a block |
| `Classifier.WalkDiff` | tools/check-enforcement-pairing.py:334-371 | The loop over the diff lines builds the table whose contents `Classifier.WalkRecords` and `Classifier.RecordedExactly` state |
| `Classifier.StepRecords` | tools/check-enforcement-pairing.py:340-371 | One line adds to each file's numbers exactly its record: its number for a substantive addition or removal, -1 for a hunk header without numbers, and nothing else |
| `Classifier.WalkRecords` | tools/check-enforcement-pairing.py:334-371 | The table holds, for every file and side, exactly the records of the diff's lines in order |
| `Classifier.RecordedExactly` | tools/check-enforcement-pairing.py:334-371 | A number stands in the table for a file if and only if some line of the diff puts it there |
| `Classifier.WasComesFromHeader` | tools/check-enforcement-pairing.py:334-350 | The pre-image path of an entry comes from a header that names the file |
| `Classifier.FileHits` | tools/check-enforcement-pairing.py:373-385 | A file is a hit exactly when a changed line lies outside the test regions of its own image |
| `Classifier.SubstantiveFiles` | tools/check-enforcement-pairing.py:313-386 | Walk and region test together compute the list that `Classifier.ListedExactly` characterises |
| `Classifier.ListedExactly` | tools/check-enforcement-pairing.py:313-386 | For every diff and any images, a file is listed if and only if some line is a substantive change of it, or a hunk header without numbers, that no test region of the image on its own side exempts |
| `Classifier.AddedLineFires` | tools/check-enforcement-pairing.py:362-386 | A substantive addition in a hunk, outside the test regions of the new image at the number counted from its hunk header, lists its file |
| `Classifier.RemovedLineFires` | tools/check-enforcement-pairing.py:362-386 | So does a substantive removal outside the test regions of the old image |
| `Classifier.NoImagesListExactly` | tools/check-enforcement-pairing.py:313-386 | With no images a file is listed if and only if the diff holds a substantive change of it or a hunk header without numbers |
| `Diff.HunkReads` | tools/check-enforcement-pairing.py:353-361 | Every hunk header a diff can carry, lengths present or not, is read back to its two line numbers |
| `Diff.HeaderReads` | tools/check-enforcement-pairing.py:341-348 | The file header of any two paths is read back to them if and only if the mark between the paths does not occur in the second |
| `Classifier.HunkNumbers` | tools/check-enforcement-pairing.py:351-371 | Inside a hunk each counter advances by the lines its side has, less the lines that read as a file header |
| `Classifier.NumbersAreRight` | tools/check-enforcement-pairing.py:351-371 | Over the lines as the walk splits them, the counters are right if and only if no line of the hunk opens with `+++` or `---`; `Gate.NumbersAreGits` says when those lines are those of `git` |
| `Classifier.StandsInHunk` | tools/check-enforcement-pairing.py:340-371 | A line of a hunk is met in the file of the last header, at the numbers counted from its hunk header |
| `Classifier.PlusPlusLineIsSkipped` | tools/check-enforcement-pairing.py:351-352 | An added line whose text starts with `++` is neither recorded nor counted |
| `Classifier.ImagesOnlyExempt` | tools/check-enforcement-pairing.py:313-386 | For every diff, supplying file images, for a side or for single paths, can only take files off the list, and keeps the order of the rest |
| `Classifier.HitsMember` | tools/check-enforcement-pairing.py:373-386 | A path is listed if and only if it has a changed line outside the regions of its image |
| `Classifier.ListedOnceAndWatched` | tools/check-enforcement-pairing.py:329-386 | Each path is listed at most once, and only watched paths outside the test directories are |
| `Classifier.NoImagesListsAll` | tools/check-enforcement-pairing.py:373-386 | With no images every entry of the table is listed, in diff order |
| `Classifier.PathOfHeader` | tools/check-enforcement-pairing.py:340-348 | At every line the file being read is the one the last header names, when it is watched and no test |
| `Classifier.BadHunkAlwaysFires` | tools/check-enforcement-pairing.py:353-359 | A watched non-test file with an unparseable hunk header under its own header is listed whatever images are supplied |
| `Gate.NumbersAreGits` | tools/check-enforcement-pairing.py:340-371 | In a diff as `git` writes it, whose lines hold no line end but their newline, the walk meets a hunk line in its file, and at the number `git` gives it if and only if no line before it in the hunk opens with `+++`, or `---` for the old image |
| `Gate.ProductionAdditionIsListed` | tools/check-enforcement-pairing.py:313-386 | The gate end to end: in such a diff, under the premises of `Gate.RegionsAreReal` on the new image, a substantive added line of a watched file that no test item reaches lists its file |
| `Gate.ProductionRemovalIsListed` | tools/check-enforcement-pairing.py:313-386 | So does a substantive removed line, with the old image under every header that names the file |
| `GateLimits.FormFeedExempts` | tools/check-enforcement-pairing.py:266-267 | An input that fails: a form feed on a line of its own above a test module exempts the production line below the module, in an image that meets every other premise |
| `GateLimits.CommentedAttributeExempts` | tools/check-enforcement-pairing.py:276 | An input that fails: an attribute line inside a block comment exempts the code behind the comment, in a file without any test item |
| `GateItems.FieldExemptsNext` | tools/check-enforcement-pairing.py:279-303 | An input that fails: a test-only last field exempts the whole function behind its struct, whatever the attribute is taken to stand before |
| `GateItems.VariantExemptsNext` | tools/check-enforcement-pairing.py:279-303 | An input that fails: a test-only element of a list exempts the next element that has a block |
| `GateLimits.MarkInPathIsNotRead` | tools/check-enforcement-pairing.py:341-348 | An input that fails: a watched path that holds the mark between the two paths is read as what follows the mark, and so not at all when that is not watched |
| `GateLimits.QuotedPathIsNotRead` | tools/check-enforcement-pairing.py:341-348 | An input that fails: the header of a path that `git` quotes is never read |
| `GateLimits.MovedOutIsNotRead` | tools/check-enforcement-pairing.py:343-347 | An input that fails: a file moved out of the watched directories is never read |
| `GateLimits.UnreadFilesAreSilent` | tools/check-enforcement-pairing.py:340-350 | A diff whose file headers are not read lists nothing, whatever it changes and whatever images are supplied |
| `GateLimits.FormFeedHidesAddition` | tools/check-enforcement-pairing.py:340-365 | An input that fails: an added line that starts with a form feed is counted and never recorded, whatever code follows |
| `GateLimits.StarredCodeIsIgnored` | tools/check-enforcement-pairing.py:126-162 | Every line that opens with `*` or with a closed comment counts as unable to alter behaviour, whatever code follows |
| `Headless.ValidateTemplate` | crates/adapters/src/descriptor.rs:264-338 | The validating loops accept exactly the templates with one whole prompt element guarded by the only `--`, and find its index |
| `Headless.ArgvWithInjection` | crates/adapters/src/descriptor.rs:357-372 | The push-and-pop loop never pops an empty vector and yields the spliced argv |
| `Headless.ArgvLayout` | crates/adapters/src/descriptor.rs:357-372 | Where template head, injection, guard, prompt and template tail stand in the result |
| `Headless.GuardIsFirst` | crates/adapters/src/descriptor.rs:357-372 | The guard before the prompt is the first `--` if and only if none was injected |
| `Headless.PromptIsOneElement` | crates/adapters/src/descriptor.rs:343-372 | Two prompts give argvs that differ at one index only |
| `Headless.ValidateInjection` | crates/adapters/src/descriptor.rs:697-770 | The validating loop accepts exactly the blocks of plain flags with each placeholder at most once and at least one of them |
| `Headless.InjectionHasNoTerminator` | crates/adapters/src/descriptor.rs:789-808 | A rendered block holds `--` exactly when a rendered value it uses is `--` |
| `Headless.InjectionArgvFails` | crates/adapters/src/descriptor.rs:789-808 | Rendering fails exactly when the block uses a value that is missing |
| `Headless.ValidateFragment` | crates/adapters/src/descriptor.rs:497-558 | The validating loop accepts exactly the fragments with one occurrence of their own placeholder and nothing foreign |
| `Headless.ValidateSelection` | crates/adapters/src/descriptor.rs:497-558 | For either dimension, with that dimension's own placeholder and the foreign ones |
| `Headless.SelectionHasNoTerminator` | crates/adapters/src/descriptor.rs:201-214 | What a selection delivers is free of `--` when the value has any character other than a dash |
| `Headless.SelectionTerminatorExactly` | crates/adapters/src/descriptor.rs:566-574 | A delivered selection holds `--` if and only if the value is dashes that complete its element to two |
| `Headless.DashValueEndsOptions` | crates/adapters/src/descriptor.rs:580-640 | An accepted fragment and an accepted value that together inject `--` |
| `Headless.PromptIsGuarded` | crates/adapters/src/descriptor.rs:357-372 | Whatever the prompt and the injection, the injection, the guard and the whole prompt stand in that order |
| `Headless.LaunchIsGuarded` | crates/cli/src/commands/locked.rs:1126-1141 | For every accepted template, injection block and selections and every prompt, that guard is the first `--` if and only if no injected value is or completes one |
| `FsClone.ScanEntries` | crates/cli/src/fsclone.rs:163-193 | The entry loop queues directories and stops at the first entry that disqualifies the tree |
| `FsClone.TreeIsEligible` | crates/cli/src/fsclone.rs:156-196 | The worklist terminates and accepts exactly the trees its recursive specification accepts |
| `FsClone.CleanTreeCopies` | crates/core/src/util/fsx.rs:140-171 | The accepted trees are exactly those the copying loop, which reads through a link at the root, reproduces up to the set-id and sticky bits of directories |
| `FsClone.SameTreeExactly` | crates/cli/src/fsclone.rs:156-206 | The loop leaves the very tree if and only if the scan accepts it and no directory of it has a bit a new directory has not |
| `FsClone.StickyPasses` | crates/cli/src/fsclone.rs:203-206 | A sticky directory passes the scan, and the loop would drop its bit |
| `FsClone.Destination.constructor` | crates/cli/src/fsclone.rs:57-70 | Destination and temporary before the copy |
| `FsClone.Destination.Cleanup` | crates/cli/src/fsclone.rs:100-124 | The temporary is gone unless its removal fails |
| `FsClone.Destination.TryClone` | crates/cli/src/fsclone.rs:57-125 | Succeeds exactly on an eligible tree with no destination and no fault, and then leaves the tree, which the loop reproduces up to those bits; on failure the destination is untouched and no temporary remains when removal works |
| `FsClone.Destination.CopyDirAll` | crates/cli/src/fsclone.rs:47-52 | The copy succeeds exactly when the plain loop does and leaves what the loop leaves, but for those bits; the very same when no directory has any |
| `Executable.ClassifyLocalExecutable` | crates/cli/src/executable.rs:48-112 | The component loop that grows the resolved path computes the verdict |
| `Executable.LocalFileIsContained` | crates/cli/src/executable.rs:48-112 | A file verdict names a regular file at the anchor plus the candidate's own components, crosses no symlink, and is the same node walked from the project root |
| `Executable.LocalFileExactly` | crates/cli/src/executable.rs:48-112 | A candidate is a local file if and only if it may name content, climbs nowhere, and its path from the anchor crosses no link and ends at a regular file |
| `Executable.RejectedExactly` | crates/cli/src/executable.rs:48-112 | A candidate is refused if and only if it may name content and climbs, or meets a link with everything before it present, or ends at a node that is neither file nor directory |
| `Executable.ResolveIsNormalized` | crates/core/src/digest.rs:188-227 | A resolved declaration is link-free, inside the project and equal to its lock key |
| `Executable.NormalizeIsStable` | crates/cli/src/executable.rs:277-286 | A lock key's text parses back to the same key |
| `Pins.DeriveFilePins` | crates/cli/src/executable.rs:126-148 | The candidate loop collects the pins or fails as specified |
| `Pins.JudgePins` | crates/cli/src/executable.rs:240-265 | One labelled status per pin |
| `Pins.LockStatuses` | crates/cli/src/executable.rs:226-271 | The loop over the servers computes the status rows |
| `Pins.DeriveHonest` | crates/cli/src/executable.rs:126-162 | Every derived pin carries the checksum of the node its own key names, however the manifest spelled it |
| `Pins.DerivesExactly` | crates/cli/src/executable.rs:114-162 | When a server derives, every command or argument that names a regular file of the project, read off the string and the tree, has its file pin, every declared root has its root pin, and there are no others; `Pins.DeriveFailsExactly` says when it does not |
| `Pins.DeriveFailsExactly` | crates/cli/src/executable.rs:114-191 | Derivation fails if and only if the working directory is relative and not a contained directory, or a command or argument may name content and climbs, crosses a link or ends at a node that is neither file nor directory, or a declared root does not resolve or cannot be digested; nothing of that kind is silently left unpinned |
| `Pins.UndigestableExactly` | crates/core/src/digest.rs:248-314 | A declared root has no digest if and only if its subtree holds a node that cannot be digested, at any depth |
| `Pins.UpsertAgrees` | crates/core/src/lock.rs:844-859 | Upserting honest pins keeps every agreement of lock and tree and adds its own |
| `Pins.LockThenVerify` | crates/cli/src/executable.rs:226-271 | Locking and then verifying the same tree, for any servers: every row of a server that derives is a match, and a server that does not derive has its one failure row and no other |
| `Pins.EveryPinHasRow` | crates/cli/src/executable.rs:240-269 | Every derived pin of every server has its status row |
| `Pins.LockCovers` | crates/cli/src/executable.rs:226-271 | So after locking every pin of every server that derives has a matching row, and every other server has its failure row |
| `Pins.LookupUpdate` | crates/core/src/digest.rs:234-246 | Changing one file leaves every path leading where it led |
| `Pins.ChecksumNotices` | crates/core/src/digest.rs:234-314 | A key's checksum changes exactly when the changed file is the key or below a declared root |
| `Pins.DeriveStays` | crates/cli/src/executable.rs:114-191 | Whether a server derives does not depend on any file's bytes |
| `Pins.ChangeDriftsExactly` | crates/cli/src/executable.rs:226-271 | After one file changes, a server derives if it did before, and then the rows that drift are exactly those keyed by that file or by a root containing it; a server that did not derive keeps its failure row |
| `Pins.ChangeIsSeen` | crates/cli/src/executable.rs:226-271 | And every pin of a server that derived before has such a row: drifted if it covers the file, else matching; other servers do not matter |
| `Redaction.BuildRefName` | crates/cli/src/eve.rs:481-497 | The in-place edits compute the reference name |
| `Redaction.RefNameIsLegal` | crates/cli/src/eve.rs:481-497 | Every reference name is non-empty, over `[A-Z0-9_]`, not digit-led and at most 65 long |
| `Redaction.NamesCollideExactly` | crates/cli/src/eve.rs:481-497 | Two keys share a reference name if and only if their first 64 characters agree but for case and punctuation, or one is the other behind a character of punctuation where a name needs one |
| `Redaction.PunctuationIsLost` | crates/cli/src/eve.rs:481-497 | Two keys that differ in one character of punctuation share a name |
| `Redaction.CaseIsLost` | crates/cli/src/eve.rs:481-497 | So do two keys that differ in case |
| `Redaction.RedactEntry` | crates/cli/src/eve.rs:424-444 | One entry keeps its key; its value is wrapped and its reference noted once if it looks like a secret |
| `Redaction.RedactMap` | crates/cli/src/eve.rs:424-444 | The loop redacts every entry and extends the shared list to the distinct references in first-encounter order |
| `Redaction.RedactConnection` | crates/cli/src/eve.rs:365-367 | Environment then headers, one list over both |
| `Redaction.WrapIsPlaceholder` | crates/cli/src/eve.rs:447-450 | A redacted value is recognised as a placeholder |
| `Redaction.WrapIsOneReference` | crates/adapters/src/render.rs:381-415 | The reference scanner reads a redacted value as exactly that reference |
| `Redaction.RedactIdempotent` | crates/cli/src/eve.rs:424-476 | Redacting again changes nothing and asks for nothing; no live-looking value is left |
| `Redaction.FirstOnlyIsFirsts` | crates/cli/src/eve.rs:424-444 | The list has exactly the wanted names in the order of their first encounters, hence each once |
| `Redaction.FirstOnlyGrows` | crates/cli/src/eve.rs:365-367 | Later maps only extend the list |
| `Execution.RunLog.FinishError` | crates/cli/src/execution.rs:612-631 | A failed execution appends one terminal event without a result |
| `Execution.Setup` | crates/cli/src/execution.rs:235-369 | The setup stages in order; the first that fails names the outcome |
| `Execution.AcquireImages` | crates/cli/src/execution.rs:389-402 | The image loop appends one pull event for each image it pulled, in order, up to the first image that cannot be had, and nothing else |
| `Execution.Conclude` | crates/cli/src/execution.rs:480-609 | Teardown is judged before the wait, a limit is noted before it is recorded, and every path closes the log: exactly the limit note, if any, and one terminal event are appended |
| `Execution.ExecutePlan` | crates/cli/src/execution.rs:203-609 | A recorded start is closed by exactly one terminal event, the last one, with the outcome of the first failing stage; the whole log is the trace that the stages determine |
| `Execution.StagesJoin` | crates/cli/src/execution.rs:203-609 | The whole run fails where its first failing part does |
| `Execution.FineOutcomeMeansEverything` | crates/cli/src/execution.rs:235-609 | The recorded outcome is `ok` if and only if every setup stage, every image, both starts, the wait, the teardown, the exit code, the result and the limits were good |

## Left out

- The Markdown block converter and slugger of `tools/make-docs-pages.py`.
- Search ranking, tool details and bindings of the gateway; building a gateway from a manifest, library pins and package servers.
- JSON, TOML and YAML text: entries are value trees with keys in order and without repeats, as the maps of the source guarantee; the navigation to a section by its location is not modelled.
- Full shell semantics: expansion, `cd -`, `CDPATH`, a directory or program that reads as an option. A script is read as words and operators.
- The fields of a server that never reach a native entry (targets, owner, integrity roots), and the single-list `substitute` beside `substitute_with`.
- How a target with its own expansion spells references beyond `${NAME}`, and the
  decoding of the output of `git` before the gate reads it.
- Rust's grammar beyond token trees: whether an attribute stands before an item or an element of a list is a parameter, and an item is taken to reach its first semicolon or block, which is at least how far it reaches.
- Writing a row cannot fail here. In the source the text of a denial is cut at byte 200 (crates/cli/src/gateway.rs:1208-1212), which stops the call when that byte falls inside a character, so a long machine-layer denial can lose its row.
- Non-ASCII decimal digits, which the hunk-header expression would accept.
- Transports, containers, sockets and timeouts: their outcomes are parameters. Connecting and asking count as one contact.
- The trust verdict, the compiled policy and the name sanitiser, which are arbitrary functions here.
- Rows other writers put into the same run log during an execution, and the drain of the gateway spool.
- Changes of a tree while it is scanned or copied, and the contents of a partially merged destination.
- Digests are collision-free constructors over ordered file lists, so sorting the list is not modelled; lock keys are component sequences, which `Executable.NormalizeIsStable` justifies.
- Error wording, timestamps and audit file formats.
