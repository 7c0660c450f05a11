# Desktop organizer, modelled in Dafny

A model of the desktop organizer. It has two parts.

The package organiser (`modules/`) covers:
- the batch pass of `DesktopOrganizer.organize`: validate the directory, reset it by emptying every subfolder into the top level, create one container per configured category with a `.meta` style file, then move every remaining file into its category's container and apply the rule engine;
- the rule engine (conditions, the move/encrypt/notify actions);
- the file vault's encryption and decryption effects;
- the watch side: the per-name debounce of `FileEventHandler`, its event callbacks and notification protocol, and the handler bookkeeping of `FileMonitor`.

The standalone script `desktop-organizer.py` has a fixed table of seven categories, its own move pass, and a yes/no confirmation. The script shares no code with the package. Its first-match lookup (`Script.FirstBucket`) therefore mirrors `Categories.FirstByExtension` over its own two-field `Bucket` record rather than the package's four-field `Category`.

How the model represents the environment:
- **Directories.** A directory is a `Fs.Directory` object. It holds its `kind` (missing, not a directory, a directory), its entries as a tree of files and subdirectories, and the set of relative paths the operating system refuses to touch.
- **Primitive operations.** Every primitive the program calls is a pure function returning the new entries and the exception it raised, if any. These are `shutil.move`, `mkdir`, `rmdir`, `write_text`, `open().read()/write()`, `unlink` and `rename`.
- **Loops and outputs.** Every loop of the program that changes state is a Dafny `while` loop proved against a recursive specification function. The pure lookups of `_determine_category` and `_categorize_executable` (their `for` loops and the `any`) are the recursive functions `Categories.FirstByExtension` and `Categories.FirstByPattern`. Log lines, desktop notifications and callback invocations form one ordered stream of events, held in a `Fs.Sink` object.
- **Collaborators.** The following are parameters: the wall-clock time read by `time.time()`, the regular-expression matcher, the Fernet cipher and the key `Fernet.generate_key` returns.

Modules: `Base` (options, results, exceptions), `Names` (pathlib and string helpers), `Fs` (the filesystem), `Categories`, `Vault`, `Rules`, `Organizer`, `Monitor` (file_handler.py) and `Script` (desktop-organizer.py).

Behaviours of the code that the model keeps, and proves as lemmas:
- **The reset can fail to flatten a folder.** It moves each child of a subfolder up. A child whose name is already taken at the top level stays behind. The folder is then not removed, and both failures are only logged (`Organizer.TakenNameKeepsFolder`).
- **The reset runs before the containers are created.** So the previous run's containers, and their `.meta` files, are emptied into the top level first.
- **The rules see the pre-move path.** `_process_files` gives the rules the path the file had before it was moved. A rule that reads the file (a size condition, an encrypt action) therefore raises FileNotFoundError, and that ends the pass (`Organizer.RulesSeeThePreMovePath`).
- **Encrypted files are skipped only by name.** The test is the case-sensitive suffix ".enc". Encrypting "a.txt" and then "a.pdf" writes the same "a.enc" (`Vault.TextAndPdfCollide`).
- **The organiser cannot be constructed as written.** `__init__` calls `_setup_logger`, which is not defined (`Organizer.DesktopOrganizer.CreateAsWritten`; see Findings).
- **A callback that raises produces both notices.** The callback runs inside the same `try` as the pass, after "File Organized" has been shown, so its exception adds an "Organization Error" notice (`Monitor.HandleProtocol`).
- **The script knows nothing of hidden or encrypted files.** It moves every top-level file, hidden ones included, and lets the first failure propagate.

## Model

| member | source | states |
|---|---|---|
| Names.Suffix | modules/core_organizer.py:92 | pathlib `suffix`: empty exactly when the name has no dot after its first character or ends in a dot; otherwise a dot plus dot-free text that ends the name |
| Names.Stem | modules/core_organizer.py:102 | the stem followed by the suffix is the name; a non-empty name has a non-empty stem |
| Names.SplitExt | desktop-organizer.py:37 | `os.path.splitext` extension: non-empty exactly when some dot of the name follows a character other than a dot; then a dot plus dot-free text that ends the name |
| Names.Lower | desktop-organizer.py:37 | `lower()`: same length, each character lower-cased |
| Names.Strip | desktop-organizer.py:57 | `strip()`: no longer than the input and neither starts nor ends with a character `str.isspace` accepts |
| Names.StripSpec | desktop-organizer.py:57 | `strip()` is a contiguous slice of the input with only white space before and after it |
| Names.Listing | modules/core_organizer.py:52 | a directory listing has one name per entry |
| Names.ListingSpec | modules/core_organizer.py:77 | a listing holds every entry of the directory and no name twice |
| Fs.Size | modules/rule_engine.py:39 | `st_size`: absent exactly when the file is missing; the data length of a file |
| Fs.MoveUp | modules/core_organizer.py:59 | `shutil.move(child, parent)` succeeds exactly when the child exists, the top level has no entry of its name and the path is not locked; it then moves the child up; a failure changes nothing |
| Fs.Rmdir | modules/core_organizer.py:63 | `rmdir` succeeds exactly on an empty, unlocked directory and removes it; a failure changes nothing |
| Fs.MkdirExistOk | modules/core_organizer.py:70 | `mkdir(exist_ok=True)` keeps an existing directory, fails on an existing file, otherwise creates an empty directory |
| Fs.MkdirIfAbsent | modules/core_organizer.py:110-111 | `if not exists(): mkdir()` leaves any existing entry, file or directory, as it is |
| Fs.WriteInside | modules/core_organizer.py:71-74 | `write_text` into a container succeeds exactly when the container is a directory and the target is not a directory; it then sets the file's contents |
| Fs.MoveInto | modules/core_organizer.py:112 | moving a top-level entry to `dest/name` succeeds exactly when `dest` is a directory, the names differ and only a file is replaced (with `replace`); the entry leaves the top level for the container |
| Fs.ReadFile | modules/security.py:19-20 | reading succeeds exactly on an unlocked file and yields its contents |
| Fs.WriteFile | modules/security.py:23-24 | writing creates or truncates the file unless a directory has that name |
| Fs.Unlink | modules/security.py:26 | `unlink` succeeds exactly on an unlocked file and removes it |
| Categories.LoadConfig | modules/core_organizer.py:33-38 | a readable configuration document is returned as is; an unreadable one raises RuntimeError("Config load failed: " + the reader's message) |
| Categories.FirstByExtension | modules/core_organizer.py:95-97 | the index of the first category listing the extension, or none exactly when no category lists it |
| Categories.FirstByPattern | modules/core_organizer.py:103-105 | the index of the first executable rule one of whose patterns occurs in the stem, or none exactly when none does |
| Categories.CategorizeExecutableSpec | modules/core_organizer.py:101-106 | the first rule whose pattern occurs in the lower-cased stem, else "Executables" |
| Categories.DetermineCategorySpec | modules/core_organizer.py:90-99 | ".exe" of any case goes to the executable rules; otherwise the first category listing the lower-cased suffix, else "Uncategorized" |
| Categories.ExecutableIgnoresExtensionTable | modules/core_organizer.py:92-93 | an ".exe" file's category does not depend on the extension table and is "Executables" or a rule's name |
| Categories.UpperCaseEntryNeverMatches | modules/core_organizer.py:96 | a table entry with an upper-case letter never equals the lower-cased suffix of any name |
| Categories.FirstByExtensionAgree | modules/core_organizer.py:95-97 | two tables that agree, category by category, on whether they list an extension select the same category for it |
| Categories.UpperCaseEntryIsDead | modules/core_organizer.py:95-97 | removing one upper-case entry from a category's list changes the category of no file |
| Categories.UpperCaseCategoryNeverChosen | modules/core_organizer.py:95-97 | a category whose entries all hold an upper-case letter is never selected by the extension lookup |
| Categories.SoleOwnerSelected | modules/core_organizer.py:95-97 | a file whose extension exactly one category lists goes to that category |
| Vault.IsEncrypted | modules/security.py:43-44 | encrypted exactly when the name is at least five characters and ends in ".enc" |
| Vault.EncSuffixByEnding | modules/security.py:44 | a suffix of ".enc" is the same as ending in ".enc" after at least one other character |
| Vault.FileVault.constructor | modules/security.py:7-8 | the key store starts empty |
| Vault.FileVault.EncryptFile | modules/security.py:15-27 | the entries become those of read, write ".enc" token, unlink original, stopping at the first failure; the key is recorded under the original name only when all three succeed |
| Vault.FileVault.DecryptFile | modules/security.py:29-41 | the entries become those of read, decrypt, write the suffix-less file, unlink the token; the key store is untouched |
| Vault.EncryptTargetIsEncrypted | modules/security.py:23 | the file encryption writes is recognised as encrypted and keeps the stem |
| Vault.SameStemSameTarget | modules/security.py:23 | two files with the same stem encrypt to the same name |
| Vault.TextAndPdfCollide | modules/security.py:23 | "a.txt" and "a.pdf" both encrypt to "a.enc" |
| Vault.DeletionOnlyAfterWrite | modules/security.py:22-26 | the original disappears only in a successful run, which leaves exactly the token in its place |
| Vault.FailedEncryptionKeepsOriginal | modules/security.py:19-26 | when encryption fails the original is still there, unchanged |
| Vault.EncryptingEncryptedFileDestroysIt | modules/security.py:23-26 | encrypting a ".enc" file writes onto itself and then deletes it |
| Vault.DecryptTargetOfEncryptTarget | modules/security.py:37 | decryption restores the stem, not the original name |
| Vault.DecryptingSuffixlessFileDestroysIt | modules/security.py:37-41 | decrypting a file without a suffix writes onto itself and then deletes it |
| Vault.RejectedTokenChangesNothing | modules/security.py:36 | a token the cipher rejects raises before any file changes |
| Rules.LoadRules | modules/rule_engine.py:10-15 | an unreadable rules document gives no rules; a readable one gives its rules |
| Rules.MatchesRule | modules/rule_engine.py:24-46 | with a size, the rule holds exactly when every present condition holds; only a missing file with a size condition raises |
| Rules.EffectivePassword | modules/rule_engine.py:66 | `password or 'default'`: a non-empty given password is used as is; a missing or empty one becomes "default" |
| Rules.FormatKeepsPlainText | modules/rule_engine.py:71 | `message.format(file=name)` of a message without braces is the message |
| Rules.FormatPlainPrefix | modules/rule_engine.py:71 | text without braces is copied ahead of what the rest of the message formats to, or of its exception |
| Rules.FormatReplacesField | modules/rule_engine.py:71 | a "{file}" field is replaced by the file name and formatting goes on after it |
| Rules.FormatRejectsLoneClosingBrace | modules/rule_engine.py:71 | a single "}" raises ValueError("Single '}' encountered in format string") |
| Rules.FormatRejectsOtherFields | modules/rule_engine.py:71 | a plain field other than "file" raises: IndexError for an empty or numeric field, KeyError naming the field otherwise |
| Rules.FormatUndoesEscape | modules/rule_engine.py:71 | "{{" and "}}" are escapes: a text with every brace doubled formats back to the text |
| Rules.EscapedFieldIsLiteral | modules/rule_engine.py:71 | "{{file}}" formats to "{file}", not to the name |
| Rules.RuleMove | modules/rule_engine.py:58-61 | into "" or ".", the file's own directory, nothing changes and only a missing file raises; otherwise a successful rule move puts the file, unchanged, into the destination folder; a failure leaves at most a new empty folder |
| Rules.ExecuteAction | modules/rule_engine.py:48-71 | a missing `type` raises KeyError; an unknown type is a no-op; move raises KeyError without `destination`, else has the effect of `mkdir` then `rename`; encrypt has the effect of the vault's encryption; notify raises KeyError without `message`, shows one "File Action" notice of the formatted message, or raises what formatting raised; only notify emits anything, and it never changes the files |
| Rules.ApplyRules | modules/rule_engine.py:17-22 | a pass that completes emits at most one event per rule |
| Rules.ApplyRulesUnfold | modules/rule_engine.py:20-22 | the pass is the first rule's turn (test, then run its action when it matches) followed, unless that raised, by the pass over the rest |
| Rules.ApplyRulesSplit | modules/rule_engine.py:18-22 | the pass over two lists joined is the pass over the first followed, unless that raised, by the pass over the second |
| Rules.ApplyRulesIsLoop | modules/rule_engine.py:20-22 | for any mix of actions, the pass is the loop running each rule's turn in order, from the first to the last, stopping at the first exception |
| Rules.RuleEngine.constructor | modules/rule_engine.py:7-8 | the engine holds the rules loaded from its document |
| Rules.RuleEngine.Apply | modules/rule_engine.py:17-22 | the entries, events and exception are those of the loaded rules followed by the additional ones, in order |
| Rules.EmptyRuleMatchesEverything | modules/rule_engine.py:25 | a rule without conditions matches every file |
| Rules.SizeBoundsInclusive | modules/rule_engine.py:38-44 | both size bounds are inclusive |
| Rules.EveryMatchingRuleRuns | modules/rule_engine.py:20-22 | with notify rules only, every matching rule's notice is emitted, in rule order |
| Rules.UnknownActionIsNoOp | modules/rule_engine.py:51-56 | an action of unknown type changes nothing and emits nothing |
| Rules.StaleFileEncryptFails | modules/rule_engine.py:63-66 | an encrypt action on a file that is no longer there raises FileNotFoundError |
| Rules.MoveActionRelocates | modules/rule_engine.py:58-61 | a move action to a new folder leaves exactly that folder holding the file |
| Rules.MoveToOwnDirectoryIsNoOp | modules/rule_engine.py:59-61 | a move action to "" or "." changes nothing and emits nothing, and raises FileNotFoundError exactly when the file is gone |
| Organizer.DesktopOrganizer.constructor | modules/core_organizer.py:12-17 | a new organiser holds its configuration and engine and has no monitor |
| Organizer.DesktopOrganizer.Create | modules/core_organizer.py:12-17 | corrected: construction fails exactly when the configuration cannot be loaded, with `_load_config`'s RuntimeError; the engine holds the loaded rules |
| Organizer.DesktopOrganizer.CreateAsWritten | modules/core_organizer.py:12-16 | as written: construction always raises; with a readable configuration the exception is AttributeError for `_setup_logger` |
| Organizer.DesktopOrganizer.Organize | modules/core_organizer.py:40-45 | the entries, events and exception are those of validate, reset, create containers, process files |
| Organizer.InvalidPathChangesNothing | modules/core_organizer.py:47-49 | organising a missing path or a file raises ValueError and changes nothing |
| Organizer.DesktopOrganizer.ValidatePath | modules/core_organizer.py:47-49 | validation passes exactly for an existing directory, else raises ValueError |
| Organizer.DesktopOrganizer.ResetDesktop | modules/core_organizer.py:51-54 | the entries and logs are those of emptying each top-level folder except "System Volume Information", one at a time |
| Organizer.DesktopOrganizer.EmptyFolder | modules/core_organizer.py:56-65 | the entries and logs are those of moving each child up, logging refusals, then removing the folder, logging a refusal |
| Organizer.ResetKeepsFilesAndSystemFolder | modules/core_organizer.py:52-54 | the reset never changes a top-level file or "System Volume Information" |
| Organizer.EmptyFolderKeeps | modules/core_organizer.py:56-65 | emptying a folder changes no other top-level entry |
| Organizer.CleanFolderIsFlattened | modules/core_organizer.py:56-65 | a folder whose children neither clash nor are locked is replaced by its children, with no log line |
| Organizer.MoveChildrenUpClean | modules/core_organizer.py:57-61 | moving clash-free children up leaves each at the top level, unchanged, and removes it from the folder |
| Organizer.MovedAllChildren | modules/core_organizer.py:57-61 | moving every clash-free child up leaves the folder empty and the children at the top level |
| Organizer.MoveChildrenUpBlocked | modules/core_organizer.py:58-61 | a child whose name is taken at the top level stays in the folder, and its refusal is logged |
| Organizer.MoveChildrenUpEach | modules/core_organizer.py:57-61 | every listed child, whether free, clashing or locked, is at the top level unchanged at the end, or its refusal is logged |
| Organizer.EmptyFolderMovesEachChild | modules/core_organizer.py:56-65 | emptying a folder leaves each of its children at the top level unchanged, or logs why that child could not move |
| Organizer.TakenNameKeepsFolder | modules/core_organizer.py:56-65 | such a child keeps the folder from being removed; the last log line is the removal failure |
| Organizer.MoveChildrenUpFrame | modules/core_organizer.py:57-61 | moving children up keeps the folder a directory and brings only its children's names to the top level |
| Organizer.EmptyFolderRemoves | modules/core_organizer.py:56-65 | after a folder's turn it is gone, or its removal failure (not empty, or refused) is logged |
| Organizer.EmptyFolderAbsent | modules/core_organizer.py:56-65 | emptying a folder that does not hold a name does not bring that name to the top level |
| Organizer.ResetSweepAbsent | modules/core_organizer.py:52-54 | a name gone from the top level comes back during the rest of the sweep only as the child of a later folder |
| Organizer.ResetSweepClearsOne | modules/core_organizer.py:52-65 | each folder the sweep resets is gone at the end, or its removal failure is logged, or a folder of the snapshot held a child of its name |
| Organizer.ResetClearsFolders | modules/core_organizer.py:51-65 | every top-level folder but "System Volume Information" is gone after the reset, unless its removal failure is logged or some top-level folder held a child of the same name |
| Organizer.DesktopOrganizer.CreateContainers | modules/core_organizer.py:67-74 | the entries and exception are those of creating each container and writing its `.meta`, in table order, stopping at the first failure |
| Organizer.ProvisionEstablishes | modules/core_organizer.py:67-74 | after a successful pass every category has its container holding its style in `.meta` |
| Organizer.ProvisionKeepsOthers | modules/core_organizer.py:67-74 | an entry named like no category is unchanged |
| Organizer.ProvisionKeepsChildren | modules/core_organizer.py:70-74 | an existing folder keeps every child except `.meta` |
| Organizer.ProvisionFailsOnFile | modules/core_organizer.py:70 | a file named like a category makes the pass raise, and the file is kept |
| Organizer.ProvisionSucceeds | modules/core_organizer.py:67-74 | with distinct names and each container creatable with a writable `.meta`, the pass succeeds |
| Organizer.DesktopOrganizer.ProcessFiles | modules/core_organizer.py:76-88 | the entries, events and exception are those of the file pass over the listing; a missing directory or a file raises from `iterdir` |
| Organizer.DesktopOrganizer.ProcessEntry | modules/core_organizer.py:78-88 | one turn: skip directories, hidden and encrypted files, else move, then apply the rules when rules were given |
| Organizer.ProcessOne | modules/core_organizer.py:78-88 | a skipped entry changes nothing; without rules a turn never raises |
| Organizer.ProcessSweep | modules/core_organizer.py:77-88 | without rules the pass never raises |
| Organizer.DesktopOrganizer.MoveFile | modules/core_organizer.py:108-114 | the entries are those of the move, and a failure is logged, never raised |
| Organizer.MoveFileOutcome | modules/core_organizer.py:108-114 | a move succeeds exactly when the name is free to move, leaving the file in its container and everything else unchanged; a failure leaves at most a new empty container |
| Organizer.MoveIntoExistingContainer | modules/core_organizer.py:110-112 | a move into an existing container adds the file to it |
| Organizer.MoveCreatesContainer | modules/core_organizer.py:110-112 | a move to a missing container creates it holding just the file |
| Organizer.ProcessMovesEveryFile | modules/core_organizer.py:76-88 | without rules the pass succeeds, and every visible, unencrypted top-level file is in its category's container or its move failure is logged |
| Organizer.ProcessSkipsHiddenAndEncrypted | modules/core_organizer.py:78-82 | hidden and encrypted files are never touched |
| Organizer.ProcessSweepMoves | modules/core_organizer.py:77-85 | each listed file is filed or logged by the end of the pass |
| Organizer.ProcessSweepKeepsFile | modules/core_organizer.py:77-82 | a file not listed, hidden or encrypted is unchanged |
| Organizer.ProcessSweepKeepsFiled | modules/core_organizer.py:77-85 | a file already in a container stays there |
| Organizer.ProcessOneMoves | modules/core_organizer.py:84-85 | a visible file's turn files it or logs its move failure |
| Organizer.ProcessDirWithoutRules | modules/core_organizer.py:76-88 | without rules the pass raises exactly when the directory is not there; it emits only log lines; a failure changes nothing |
| Organizer.RulesSeeThePreMovePath | modules/core_organizer.py:85-88 | after a successful move, an encrypt rule or a size rule raises FileNotFoundError on the old path |
| Organizer.MovedTurnAppliesRules | modules/core_organizer.py:85-88 | after a successful move the rules run on the old name, absent from the top level |
| Organizer.StaleNameStopsRules | modules/rule_engine.py:38-39 | rules that read a missing file raise FileNotFoundError |
| Organizer.DesktopOrganizer.StopMonitoring | modules/core_organizer.py:27-31 | afterwards there is no monitor |
| Monitor.Admit | modules/file_handler.py:42-57 | an event is let through exactly when the name is not hidden and at least five seconds passed since its last acceptance (time 0 when never); only then is the time recorded |
| Monitor.LedgerOnlyGrows | modules/file_handler.py:56 | a name once recorded stays recorded |
| Monitor.LedgerHoldsLastAcceptance | modules/file_handler.py:56 | the ledger holds the time of the last accepted event for a name |
| Monitor.AcceptancesAreSpaced | modules/file_handler.py:49-56 | two consecutive accepted events for a name are at least five seconds apart |
| Monitor.AcceptancesAreSpacedOnAClock | modules/file_handler.py:49-56 | on a non-decreasing clock any two accepted events for a name are at least five seconds apart |
| Monitor.FileEventHandler.constructor | modules/file_handler.py:9-13 | a new handler has an empty ledger |
| Monitor.FileEventHandler.ShouldHandle | modules/file_handler.py:42-57 | the decision and new ledger are those of the debounce |
| Monitor.FileEventHandler.HandleFile | modules/file_handler.py:59-76 | the parent's entries and the events are those of re-processing the parent without rules, then the notices, the callback, and an error notice when the callback raises |
| Monitor.FileEventHandler.React | modules/file_handler.py:15-40 | a directory event changes nothing; a file event is handled exactly when the debounce lets it through |
| Monitor.FileEventHandler.OnModified | modules/file_handler.py:15-22 | the `src_path` of a file event is debounced and handled |
| Monitor.FileEventHandler.OnCreated | modules/file_handler.py:24-31 | the `src_path` of a file event is debounced and handled |
| Monitor.FileEventHandler.OnMoved | modules/file_handler.py:33-40 | the `dest_path` of a file event is debounced and handled |
| Monitor.HandleSucceeds | modules/file_handler.py:61-76 | in an existing directory the pass cannot fail: log lines only, then one "File Organized" notice, then the callback exactly when there is one; an "Organization Error" notice follows exactly when that callback raises |
| Monitor.HandleFails | modules/file_handler.py:72-76 | a failed pass emits exactly one "Organization Error" notice and no callback |
| Monitor.HandleProtocol | modules/file_handler.py:59-76 | "File Organized" exactly when the pass succeeds; the callback exactly after a success with a callback; "Organization Error" exactly when the pass fails or the callback raises |
| Monitor.HandleInDirectory | modules/file_handler.py:61-70 | in an existing directory the handling is the pass without rules followed by the success notices and the callback's tail |
| Monitor.HandlingFilesEverySibling | modules/file_handler.py:63 | handling one name files or logs every visible file of the parent |
| Monitor.Existing | modules/file_handler.py:87-89 | no more paths are watched than given |
| Monitor.ExistingSpec | modules/file_handler.py:87-89 | exactly the existing paths are watched |
| Monitor.FileMonitor.constructor | modules/file_handler.py:79-83 | a new monitor has no handlers and is not running |
| Monitor.FileMonitor.Start | modules/file_handler.py:85-103 | one fresh handler sharing the callback per existing path, in order, then the observer runs |
| Monitor.FileMonitor.AddPath | modules/file_handler.py:110-121 | a missing path is ignored; otherwise one handler without a callback is added and its path scheduled |
| Monitor.FileMonitor.RemovePath | modules/file_handler.py:123-129 | as written: raises AttributeError exactly when there is a handler |
| Monitor.FileMonitor.Unwatch | modules/file_handler.py:123-129 | corrected: drops the first handler watching the path together with its schedule; nothing else changes |
| Monitor.IndexOf | modules/file_handler.py:125-126 | the first position of the path among the watched ones, or none exactly when it is not watched |
| Script.FirstBucket | desktop-organizer.py:39-43 | the first category listing the extension, or none exactly when no category does |
| Script.ChooseSpec | desktop-organizer.py:39-47 | for any category list, the first category listing the extension, else "Others" |
| Script.DestinationSpec | desktop-organizer.py:37-47 | the first category listing the lower-cased extension, else "Others" |
| Script.DestinationIsBucket | desktop-organizer.py:5-13 | every destination is one of the seven folders |
| Script.OwnerChosen | desktop-organizer.py:39-43 | in any category list without shared extensions, the one category listing an extension is chosen |
| Script.FallbackOnlyWhenUnlisted | desktop-organizer.py:45-47 | when only a last, empty category is called "Others", "Others" is chosen exactly when no category lists the extension |
| Script.TableIsDisjoint | desktop-organizer.py:5-13 | no extension is listed by two categories |
| Script.OwnerIsSelected | desktop-organizer.py:37-43 | a file goes to the one category listing its extension |
| Script.OthersOnlyByFallback | desktop-organizer.py:45-47 | a file goes to "Others" exactly when no category lists its extension |
| Script.NoExtensionGoesToOthers | desktop-organizer.py:37-47 | a file without an extension goes to "Others" |
| Script.LeadingDotIsNoExtension | desktop-organizer.py:37 | ".bashrc" has no extension and goes to "Others" |
| Script.UpperCaseExtensionMatches | desktop-organizer.py:37-40 | "a.PDF" goes to "Documents" |
| Script.SpacedUpperCaseYesConfirms | desktop-organizer.py:57-58 | "  YES" followed by a newline proceeds |
| Script.OtherAnswersRefuse | desktop-organizer.py:57-58 | "yes please" and the empty answer do not proceed |
| Script.SurroundingSpaceIgnored | desktop-organizer.py:57 | white space before or after the answer does not change the decision |
| Script.OrganizeDesktop | desktop-organizer.py:15-49 | the entries and exception are those of creating the seven folders, then moving every top-level file; a missing directory is left alone |
| Script.MoveToBucket | desktop-organizer.py:37-47 | the file is moved into the folder its extension selects |
| Script.Run | desktop-organizer.py:57-61 | without a yes answer nothing changes; with one the desktop is organised |
| Script.MakeFoldersOutcome | desktop-organizer.py:24-26 | creating the folders keeps every entry and adds only category folders; on success every category has its folder |
| Script.FileNamedLikeCategoryAborts | desktop-organizer.py:24-26 | a file named like a category raises before any file is moved |
| Script.SortSweepShrinks | desktop-organizer.py:29-47 | the move loop only removes top-level names |
| Script.SortSweepKeepsDirs | desktop-organizer.py:33-34 | directories are never moved; one that is not a category folder is unchanged |
| Script.SortSweepFiles | desktop-organizer.py:29-47 | a successful loop moves each listed file, with its contents, into its category folder |
| Script.MissingDirectoryIsLeftAlone | desktop-organizer.py:19-21 | a missing directory is left alone without an error |
| Script.OrganizedDesktop | desktop-organizer.py:15-49 | after a successful run all seven folders exist, every top-level file is in its category folder, and no directory was moved |

## Findings

| source | as written | input that shows it | evidently intended | confidence | as-written member | corrected member |
|---|---|---|---|---|---|---|
| modules/core_organizer.py:16 | `__init__` assigns `self._setup_logger()`, a method `DesktopOrganizer` does not define | any construction with a readable configuration, for example `DesktopOrganizer()` with a valid `config/categories.json`: AttributeError, so no organiser is ever built | set up a logger for the error messages that reset and `_move_file` log | high, not executed | Organizer.DesktopOrganizer.CreateAsWritten | Organizer.DesktopOrganizer.Create |
| modules/file_handler.py:125-129 | `remove_path` compares `handler.path`, an attribute `FileEventHandler` never sets | any monitor with one handler, for example after `add_path` of an existing directory, then `remove_path` of that directory: AttributeError | unschedule and drop the first handler watching the path | high, not executed | Monitor.FileMonitor.RemovePath | Monitor.FileMonitor.Unwatch |

The rest of the model uses `Create`, so that the passes of a constructed organiser can be stated at all. Its logger is the event stream.

`Unwatch` pairs each handler with the directory it was scheduled on (the `watched` list). That is the information `handler.path` was evidently meant to carry.

## Left out

- The watchdog observer, its threads, `stop`/`join`, and scheduling twice: events are modelled as direct calls of the callbacks. `FileMonitor.start` called twice is not rejected as the real observer would reject it.
- Both `start_monitoring` methods of `DesktopOrganizer`. The first stops and replaces the monitor. The second blocks on `observer.join`. Both are observer set-up only. `monitor` is typed `object?` because the handler module imports the organiser.
- The GUI (`gui/`), the scheduler, the workspace manager and `main.py` are not part of this model.
- The `NotificationManager` and the logger: a notification is an event with its title and message; a log line records which failure was logged, not its formatted text.
- `Describe` gives an approximation of `str(e)`. The directory itself appears as "." in the exceptions of `iterdir`, and the exact messages of Python's exceptions are not modelled.
- `time.time()`: `now` is a parameter. Comparisons are on unbounded reals, not floating point.
- `re.search`, the Fernet cipher, SHA-256 and PBKDF2: the matcher, `seal` and `unseal` are parameters. The password does not influence the key, because `generate_key` (modules/security.py) returns `Fernet.generate_key()`. Every encrypt action of one pass uses the same symbolic key.
- `Vault.FileVault.EncryptFile`: the key an encrypt action records in the fresh vault is dropped with that vault, and the model's rule pass does not record it.
- The callback argument is recorded by the path's name only.
- `color` and `icon` are kept as the JSON text of their values; `json.dumps` escaping is not modelled.
- Listing order: `iterdir`, `glob('*')` and `os.listdir` are modelled as ascending code-point order. The real order depends on the filesystem.
- `shutil.move` onto an existing directory (a move into it) is modelled as a failure. Moving directories into directories is not modelled.
- `Fs.MoveInto` without `replace` (`Path.rename`, modules/rule_engine.py:61) refuses any existing target, which is the Windows behaviour. On POSIX, `os.rename` silently replaces an existing file.
- Rules.RuleMove and Rules.MoveActionRelocates: a destination other than "" and "." is taken as the name of one top-level folder. A destination with a path separator (`"arch/old"`), or `".."`, is not modelled. Python's `mkdir` without `parents=True` raises FileNotFoundError when the parent of `arch/old` is missing, and `".."` moves the file out of the directory. The same holds for category names from the configuration used as container names (modules/core_organizer.py:69, 85).
- Script.Run: the desktop is a parameter. The lookup `os.environ["USERPROFILE"]` (desktop-organizer.py:53), which raises KeyError when the variable is unset, is not modelled.
- `str.lower` is modelled on ASCII letters only. `str.strip` removes exactly the characters `str.isspace` accepts.
- Rules.Format: a field with a conversion, a format spec, an attribute or an index (`{file!r}`, `{file:>10}`, `{file.x}`, `{file[0]}`) hands the whole message to the `elaborate` parameter, because the format-spec mini-language is not modelled. Non-ASCII digits in a field name are read as a name, not a position.
- A `message`, `destination` or `password` of a type other than a string, and conditions of the wrong type, are not modelled: the documents are typed.
- Categories.LoadConfig: the configuration is a typed `Config`. The KeyErrors for a document without `categories` (modules/core_organizer.py:68, 95) or `executable_rules` (line 103), and for a category without `extensions`, `color` or `icon` (lines 72-73, 96), cannot arise in the model.
- The relative imports `from ..gui.notification_manager` (modules/file_handler.py:6, modules/rule_engine.py:69) reach above the `modules` package. Whether they resolve depends on how the program is launched. The model assumes they succeed.
- Rules.ApplyRules: its own contract is only a bound on the events. Its meaning is stated by `Rules.ApplyRulesIsLoop`, `Rules.ApplyRulesSplit` and `Rules.ApplyRulesUnfold`.
- Organizer.ResetClearsFolders: a folder can be removed and a later folder's child of the same name then moves up into the freed name. The lemma states that case as a disjunct rather than excluding it.
- The callback's own effects: `raised` is the exception it raises on this call, if any, and nothing else it does is modelled.
- Directory identity: `Unwatch` and `IndexOf` compare `Directory` objects, not path strings.
- Organizer.ProcessMovesEveryFile: stated for a pass without rules. With rules, a rule may move or encrypt the file again, or raise; `RulesSeeThePreMovePath` and `MovedTurnAppliesRules` state what happens then.
- Organizer.ProcessSweepMoves, Organizer.ProcessOneMoves, Organizer.ProcessSweepKeepsFile, Organizer.ProcessSweepKeepsFiled and Organizer.ProcessSkipsHiddenAndEncrypted: likewise stated for a pass without rules.
- Script.SortSweepFiles and Script.OrganizedDesktop: state the outcome of a successful run only. A failed run propagates its first exception, keeping the moves done so far.
