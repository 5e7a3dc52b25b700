# ratline, verified

A Dafny model of the parts of ratline where a mistake costs an operator something: the editor that
rewrites `/etc/ratline/config.yaml` one line at a time, the deploy with its automatic revert, the
transactions behind `ratline new` and `ratline import`, the `.env` editor and the wrapper that reads
what it wrote, and the two checks that keep rsync and SFTP sessions inside a site's directory.
Beside them stand three small algorithms: the edit distance behind "did you mean", the integer
printer that fills a fixed buffer, and the printer of copyable command lines.

Strings are sequences of bytes, over ASCII. Code that changes things step by step is modelled by
methods, loops, arrays and classes; each is proved equal to a specification function, or to a
stated property, and the laws are lemmas about those functions. Nothing is bounded: files, keys,
plans, histories and runs are of any length. What git, the service, the store, the file system and
the individual commands answer is a parameter in every theorem, so that each holds whatever they
answer.

| file | what it holds |
|---|---|
| Text.dfy, Bindings.dfy, Sorting.dfy | trimming, cutting, splitting and joining; lists of named values; ordering by a string |
| ConfigLines.dfy | one line of the configuration file: its comment, indentation, name and value |
| ConfigPaths.dfy | an indentation stack gives every line a path; `findKey` finds the first line of a path |
| ConfigEdit.dfy, ConfigLaws.dfy, ConfigUnset.dfy | set, get and unset, and what they do to each other |
| ConfigQuotes.dfy, ConfigIndent.dfy, ConfigMeaning.dfy | the same, said of the text: quotes and comments, indentation, keys and lines |
| ConfigKnown.dfy, ConfigHeaders.dfy | the listing of keys, on regular files and on all |
| ConfigScalar.dfy, ConfigEscapes.dfy | quoting of scalars, and what the quoted form stands for |
| EditDistance.dfy | edit scripts, their least cost, two rolling rows, the nearest key |
| Deploy.dfy, DeployLaws.dfy | one deploy as a state machine; single runs and sequences of runs |
| DeploySteps.dfy, DeployHistory.dfy | one run spelled out; which commit the history gives |
| Compose.dfy, Conservation.dfy | running a plan and taking it back; what a failed run leaves |
| DatabaseName.dfy, NewStack.dfy, NewParts.dfy, NewLaws.dfy, NewFailure.dfy | the plan of `ratline new` and what a failed run of it leaves; the database name it derives |
| ImportPlan.dfy, ImportLaws.dfy, ImportOrder.dfy | the plan of `ratline import`: what is in it and in which order |
| SiteSettings.dfy, ImportFlags.dfy, ImportSettings.dfy, ImportParts.dfy | what its commands ask for, read back from their flags |
| ImportTwins.dfy, ImportReady.dfy | whether each command finds what it needs, and no key is added twice |
| ImportFailure.dfy, ImportPurge.dfy | what a failed import leaves |
| CommandLine.dfy | printing a command line, and the words a POSIX shell reads from it |
| EnvFile.dfy, ExecEnv.dfy, EnvRoundTrip.dfy | the `.env` editor, the wrapper's reader, and the two together |
| EnvLines.dfy, ExecValues.dfy | what their lines and values stand for, said of the text |
| SitePaths.dfy, SftpPaths.dfy | resolving paths over a file system with symbolic links; what rsync arguments and SFTP requests may reach |
| Decimal.dfy | `itoaFast` |

## What was found

Where the code and a promise about it differ, the code is modelled as it is and the exact condition
under which the promise holds is proved.

- `findKey`'s comment promises the immediate parent. When the key is absent it returns the last
  section on the way to the key, whichever that is. So a key whose section is missing, or stands
  before an outer section that the file opens again, is written where nothing reads it: it cannot be
  read back, and it cannot be unset (`ConfigLaws.MissingSectionLoses`,
  `ConfigLaws.SetThenGetAbsent`, `ConfigLaws.RepeatedSectionLoses`, `ConfigUnset.LostCannotBeUnset`).
- The comment in `SetValue` says that a new top-level key goes after any trailing blank lines; the
  code puts it before them. Unsetting such a key again takes a comment that stood above it along
  (`ConfigUnset.UnsetUndoesSet`).
- `cutComment` knows quotes but not the backslash that escapes one, and a newline alone is not among
  what `FormatScalar` quotes. What it writes can be stored and read back exactly when a bare value
  holds no newline and, in a quoted one, every '#' behind a space is inside quotes as `cutComment`
  counts them - on a line with a comment the value's own quotes must also pair up
  (`ConfigScalar.FormatScalarReadable`; `ConfigScalar.EscapedQuoteIsUnsafe` and
  `ConfigScalar.NewlineIsWrittenBare` are inputs).
- `KeyExists` also accepts the names of sections, which `KnownKeys` does not list
  (`ConfigKnown.SectionsExistUnlisted`).
- A deploy that does not restart counts as healthy, so a later failed restart can revert to a commit
  the service never ran (`DeployLaws.UnrestartedCommitCountsAsHealthy`; `DeployLaws.OkCommitServedIff`
  is the exact condition under which a recorded commit was served).
- `ratline new` says that a failed run removes everything it created. It deletes what its completed
  steps were to create, and `site add` and `db create` succeed on what is already there: given again
  for a running stack, it deletes that stack's site and database when the certificate is refused
  (`NewFailure.CertificateFails`, `NewFailure.RepeatedNewDeletes`). A key given to a tenant that was
  already there stays (`NewLaws.KeyStaysBehind`), and the preview does not name it
  (`NewLaws.WhatIsKept`). The server is as it was exactly when none of the tenant, site and database whose
  steps completed was there before, and the key changed nothing (`NewLaws.FailedNew`).
- `ratline import` says so too. It deletes the tenants it was to create, with their keys, and the sites.
  Every other key it added stays: a global one, one for a site, one for a tenant it does not create
  (`ImportFailure.FailedImport`, `ImportFailure.WhichKeysStay`, `ImportFailure.GlobalKeyStays`). Since
  it looks tenants and sites up first, what it deletes was missing before, and the server is as it was
  exactly when those keys changed nothing (`ImportFailure.FailedImportRestores`); where the lookups
  fail, a tenant that is there is deleted with its sites (`ImportPurge.BlindImportDeletes`).
- An import restores keys before sites, and `key add --scope site` looks its site up. So an export
  with a live key for a site cannot be imported where that site is not already there
  (`ImportReady.SiteKeyStopsImport`, `ImportReady.MovedSiteKey`). Nor can one in which a key is live in
  two scopes, which `key add --allow-duplicate` allows and an import does not pass on
  (`ImportReady.TwinsStopImport`). `ImportReady.ImportReady` is the exact condition; where it fails, what
  `ImportLaws.ImportTwice` says of a completed import is not reached.
- The commands of an import drop fields of the export: a tenant's password login and disabled mark;
  everything that limits a key, so that an expired key comes back without its expiry; and of a site
  its start command, its process manager, HSTS, and for bun its instances, although `site add` has flags for them
  (`ImportFlags.UserComesBack`, `ImportFlags.KeyComesBack`, `ImportFlags.ExpiredKeyComesBack`,
  `ImportSettings.SiteComesBack`, `ImportSettings.OfferedArePassed`, `ImportSettings.BunInstancesAreLost`).
- The database name derived from a domain can be one of MongoDB's own, which plan then refuses
  (`DatabaseName.DerivedNameUsable`, `DatabaseName.HyphensShadowAdmin`).
- A printed command line means what it shows only if no argument is empty and no unquoted one holds
  a byte that is special to a shell (`CommandLine.PastedBack`).
- A value `.env` accepts reaches the service unchanged exactly when it holds no backslash, outer
  blank or leading quote (`EnvRoundTrip.SetValueArrives`); rewriting the file can take two passes to
  settle (`EnvRoundTrip.OnePassSuffices`).
- rsync's check and SFTP's agree on every file system exactly for the relative paths that never climb
  above their start (`SftpPaths.SessionsAgree`); "../x" is one that does (`SftpPaths.ClimbingDisagrees`).
- `itoaFast` prints only the sign for the least 64-bit integer (`Decimal.OnlyTheLeastIsLost`).

## Model

| member | source | states |
|---|---|---|
| ConfigLines.CommentAtLeast | internal/config/edit.go:229-248 | A trailing comment starts at the least '#' that stands outside quotes, at the start or behind a blank, and nowhere else |
| ConfigLines.CutComment | internal/config/edit.go:229-248 | The loop with its quote variable splits the line at exactly that place |
| ConfigQuotes.StripsTheComment | internal/config/edit.go:229-248 | Text written in pieces, bare or between two quotes of either kind, loses nothing; a '#' behind it and a blank is cut off with what follows |
| ConfigQuotes.ValueIsText | internal/config/edit.go:93-99 | So a line reads as the text behind its colon, less outer blanks and the comment |
| ConfigQuotes.QuotedReads | internal/config/edit.go:229-248 | A value between single or between double quotes reads as it is written, whatever '#' and other quotes it holds, with a comment behind it or without |
| ConfigQuotes.QuotedKeyReads | internal/config/edit.go:85-100 | And a key on such a line is read as that |
| ConfigLines.HeadDecides | internal/config/edit.go:138-158 | What stands before the colon alone decides which level and name a line has, whatever value or comment follows |
| ConfigMeaning.NameIsEntry | internal/config/edit.go:138-158 | A legal name behind n blanks and before a colon is an entry at level n/2, whatever follows; for odd n it is refused |
| ConfigIndent.NoColonIsBare | internal/config/edit.go:138-163 | Text without a colon behind n blanks only ends the sections at level n/2 and deeper |
| ConfigMeaning.CommentIsBlank | internal/config/edit.go:138-143 | White space, alone or before a comment, says nothing |
| ConfigLines.EntryHead | internal/config/edit.go:138-158 | The colon at which the stripped, trimmed line is cut is the first colon of the raw line |
| ConfigLines.ReadBack | internal/config/edit.go:93-99 | A value written behind a colon, with or without a comment after it, is read back exactly when it is trimmed, opens no comment and, before a comment, leaves no quote open |
| ConfigPaths.ReadLine | internal/config/edit.go:138-158 | One turn of the loop classifies its line: blank, oddly indented, without a colon, or a name at a level |
| ConfigIndent.PathIs | internal/config/edit.go:147-178 | Without a stack: a line stands at a path exactly when it is an entry of the last name at its level, and each name before is that of an earlier entry at its own level, with no line of that level or a lesser one in between |
| ConfigPaths.DepthFollows | internal/config/edit.go:147-178 | The one depth counter is the longest common prefix of the open sections and the wanted path, and sees every match the stack sees |
| ConfigPaths.FindKey | internal/config/edit.go:135-180 | On every file: the least line whose path is the wanted one, with the last section of the path above it; -1 exactly when no line has the path; refused exactly when an odd indentation comes first |
| ConfigPaths.NoAncestorAfterLast | internal/config/edit.go:175-179 | The parent returned is the last section on the way to the key: no later line opens one |
| ConfigPaths.FoundParentIsImmediate | internal/config/edit.go:132-133 | When the key is found, the parent returned is the immediate one |
| ConfigPaths.AbsentParentMayBeRemote | internal/config/edit.go:132-133 | When it is not found the parent can be two levels above, against the comment |
| ConfigPaths.InsertKeepsPath | internal/config/edit.go:71-77 | In a well-formed file a line inserted below its parent leaves every other line its path |
| ConfigPaths.RemoveKeepsPath | internal/config/edit.go:118-127 | Removing a leaf and the comments above it leaves every other line its path |
| ConfigPaths.GapLocate | internal/config/edit.go:135-180 | A search finds the same line in two files that differ by a block of lines on no path wanted |
| ConfigEdit.KeyPartsLegal | internal/config/edit.go:198-220 | Keys are the dotted paths of one to three legal names, and nothing else |
| ConfigMeaning.KeyIs | internal/config/edit.go:198-220 | A key is accepted exactly when it has one to three parts, none empty and none with a blank, a colon, a comment mark or a quote |
| ConfigMeaning.KeyErrorIs | internal/config/edit.go:198-220 | And otherwise refused for being empty, for its depth, or for its first bad part, in that order |
| ConfigEdit.SplitKey | internal/config/edit.go:198-220 | The key's parts, or the first fault in them |
| ConfigEdit.AppendBeforeTrailingBlanks | internal/config/edit.go:252-262 | The line goes behind the last line that is not blank |
| ConfigEdit.EditLines | internal/config/edit.go:48-77 | The line of the key is rewritten in place; an absent key gets one line, below its parent or at the end of the text; no parent section is an error |
| ConfigMeaning.AddedWhere | internal/config/edit.go:53-77 | An absent key is one line more: right below the last section on the way to it, or for a top-level key behind the last line that is not blank |
| ConfigMeaning.NewLineIs | internal/config/edit.go:66-70 | That line is two blanks for each section above, the name, a colon, a blank and the value |
| ConfigMeaning.ReplacedLineIs | internal/config/edit.go:184-195 | A replaced value keeps the text before the colon and, two blanks behind it, the comment |
| ConfigMeaning.RefusedIff | internal/config/edit.go:38-62 | Setting fails exactly when the key is malformed, an odd indentation comes before it, or it is nested and absent and the file has no section on the way to it |
| ConfigEdit.SetValue | internal/config/edit.go:38-78 | Editing the body is editing its lines; a malformed key or an unreadable file is refused |
| ConfigEdit.GetValue | internal/config/edit.go:85-100 | The trimmed value, without its comment, of the first line at the key's path |
| ConfigEdit.UnsetValue | internal/config/edit.go:103-128 | The key's line goes, and with it the block of comment lines immediately above; an absent key changes nothing |
| ConfigEdit.CommentsAboveBlock | internal/config/edit.go:112-122 | That block is the longest run of comment lines that ends right above the key |
| ConfigMeaning.HashLineIs | internal/config/edit.go:112-122 | A comment line is one with a '#' behind nothing but white space |
| ConfigLaws.SetThenGetPresent | internal/config/edit.go:38-52 | On any file, a key that is present reads back what was set exactly when the value is readable on that line |
| ConfigLaws.SetThenGetAbsent | internal/config/edit.go:53-77 | On any file, an absent key reads back what was set exactly when the value is readable, the name is one a line can hold, and the section right above it is there with no section on the way to the key opened after it |
| ConfigLaws.ParentIsSection | internal/config/edit.go:175-179 | That condition on the file is what the returned parent tells: it is the immediate section |
| ConfigLaws.SectionsOnceSuffice | internal/config/edit.go:53-77 | In a file that opens no section on the way to the key twice, the section right above it only has to be there |
| ConfigLaws.MissingSectionLoses | internal/config/edit.go:132-133 | The file "a:": findKey returns line 0 as the parent of a.b.c, and a.b.c set there is not found, whatever newline-free value it is given |
| ConfigLaws.RepeatedSectionLoses | internal/config/edit.go:175-179 | The file "a:", "  b:", "a:": the section a.b is there, and a.b.c set there is not found, whatever newline-free value it is given |
| ConfigLaws.ReplaceKeepsTheRest | internal/config/edit.go:184-195 | Replacing a value, whatever its value but for a newline, keeps the number of lines, every other line and the head of its own line; and the text of its trailing comment too, if the value opens no comment and leaves no quote open |
| ConfigLaws.SetPresentKeepsOthers | internal/config/edit.go:38-52 | Setting a key that is present changes what no other key reads as, on any file |
| ConfigLaws.SetAbsentKeepsOthers | internal/config/edit.go:53-77 | Nor does adding one, on any well-formed file |
| ConfigLaws.AddedReads | internal/config/edit.go:53-77 | What a newly added key reads as: its value as stored, or nothing when a section is missing in between |
| ConfigLaws.OnlyPlainIsRead | internal/config/edit.go:85-100 | Whatever a file holds, only plain names and values without a newline are ever read |
| ConfigUnset.UnsetUndoesSet | internal/config/edit.go:103-128 | Unset after set restores the body byte for byte for every nested key, and for a top-level one exactly when no comment stands right above where it was put |
| ConfigUnset.LostCannotBeUnset | internal/config/edit.go:103-128 | A key written below a missing section cannot be unset |
| ConfigUnset.UnsetKeepsOthers | internal/config/edit.go:103-128 | Unsetting a leaf of a well-formed file changes what no other key reads as, whatever the lines removed with it hold |
| ConfigUnset.UnsetRemoves | internal/config/edit.go:103-128 | A leaf that stood on one line only is not found afterwards |
| ConfigKnown.KnownKeys | internal/config/edit.go:351-381 | The loop with its section stack produces the listing |
| ConfigKnown.ListingIsLeafKeys | internal/config/edit.go:351-381 | On a well-formed file the listing is the dotted paths of the leaf lines, in the order of the file |
| ConfigHeaders.ListingIs | internal/config/edit.go:351-381 | On every file, nested or not, what is listed are the dotted paths of the leaves: entries with something behind the colon, each under open sections of which no entry in between has the level or a lesser one |
| ConfigHeaders.HeaderIffEmpty | internal/config/edit.go:355-372 | A line opens a section for KnownKeys exactly when GetValue reads nothing from it, unless a '#' stands right behind its colon: then it reads as nothing and opens none |
| ConfigKnown.KeyExists | internal/config/edit.go:340-347 | A key exists when the shipped file has a line for it |
| ConfigKnown.ExistsIffAtSomeLine | internal/config/edit.go:340-347 | On a file that can be read a key exists exactly when some line stands at its path |
| ConfigKnown.KnownKeysExist | internal/config/edit.go:340-381 | Stack and counter agree: every leaf line's key is listed, nothing else is, and KeyExists accepts all that is listed |
| ConfigKnown.SectionsExistUnlisted | internal/config/edit.go:340-381 | A section's own name exists although it is not listed |
| ConfigScalar.UnquoteFormatScalar | internal/cli/cmd_config.go:608-615 | Unquoting gives back what was meant exactly when quoting had nothing to escape |
| ConfigScalar.UnquoteTakesOff | internal/cli/cmd_config.go:608-615 | Unquoting takes off one pair of quotes of either kind |
| ConfigScalar.UnquoteKeeps | internal/cli/cmd_config.go:608-615 | And leaves alone what is not between two quotes of one kind |
| ConfigEscapes.QuoteRoundTrip | internal/config/edit.go:270-306 | Quoting loses nothing: read back by the rules of Go string literals, a quoted value is the value, whatever bytes it holds |
| ConfigEscapes.WhatIsQuoted | internal/config/edit.go:270-306 | Quoted are the empty value, YAML words in any case, numbers with a leading zero or plus, and text that could be taken for structure; nothing else is |
| ConfigScalar.FormatScalarReadable | internal/config/edit.go:270-306 | For every value: what FormatScalar makes of it can be stored and read back exactly when a bare one holds no newline, and in a quoted one every '#' behind a space is inside quotes as cutComment counts them and, on a line with a comment, the value's own double quotes pair up |
| ConfigScalar.QuotedIsSafeIff | internal/config/edit.go:229-248 | cutComment sees no comment inside a quoted value exactly when every '#' behind a space is inside quotes, as quotes are counted without knowing escapes |
| ConfigScalar.QuotedClosesIff | internal/config/edit.go:229-248 | A quoted value leaves no quote open for cutComment exactly when the double quotes in it pair up |
| ConfigScalar.WithoutDoubleQuotes | internal/config/edit.go:270-306 | Both hold of every value without a double quote |
| ConfigScalar.BareIsQuiet | internal/config/edit.go:270-306 | What is left bare holds no quote and no comment mark, is trimmed and not empty |
| ConfigScalar.NewlineIsWrittenBare | internal/config/edit.go:300-305 | A value that is written over two lines |
| ConfigScalar.EscapedQuoteIsUnsafe | internal/config/edit.go:229-248 | A value whose escaped quote makes cutComment see a comment inside it, for which the condition fails |
| ConfigScalar.TypedValueComesBack | internal/cli/cmd_config.go:608-615 | Formatted, set on a key that is present, read back and unquoted, a printable value without quote or backslash is the value that was typed, with true and false lower-cased |
| ConfigScalar.TypedValueIsAdded | internal/cli/cmd_config.go:608-615 | And set on a key that is absent, exactly when the name is one a line can hold and the section right above it is the last on the way to it |
| EditDistance.DistanceIsLeastCost | internal/cli/cmd_config.go:547-568 | The distance is the least number of insertions, deletions and substitutions of any edit script, and one script attains it |
| EditDistance.ZeroIffEqual | internal/cli/cmd_config.go:547-568 | It is zero between equal strings only |
| EditDistance.Symmetric | internal/cli/cmd_config.go:547-568 | It is symmetric |
| EditDistance.Triangle | internal/cli/cmd_config.go:547-568 | It satisfies the triangle inequality |
| EditDistance.MinOf | internal/cli/cmd_config.go:570-578 | The least of the values |
| EditDistance.FillRow | internal/cli/cmd_config.go:557-564 | The inner loop turns one row of the table into the next |
| EditDistance.ComputeEditDistance | internal/cli/cmd_config.go:547-568 | Two swapped rows compute the distance |
| EditDistance.ComputeSquash | internal/cli/cmd_config.go:581-589 | Separators are dropped and nothing else |
| EditDistance.SquashMeans | internal/cli/cmd_config.go:581-589 | Underscores, hyphens and dots go, and every other byte stays, lower-cased |
| EditDistance.LeafIs | internal/cli/cmd_config.go:505-511 | The leaf of a key is what follows its last dot |
| EditDistance.PassesMean | internal/cli/cmd_config.go:497-531 | Five passes in this order: the same name, the same leaf, a name that contains it, the same name without separators, the same leaf without separators |
| EditDistance.FirstHit | internal/cli/cmd_config.go:500-531 | A pass returns the first key it hits, or none when it hits none |
| EditDistance.WithinTwoEdits | internal/cli/cmd_config.go:536-542 | The last pass returns the first key of least squashed distance if that is at most two, and "" exactly when every key is further away |
| EditDistance.NearestSetting | internal/cli/cmd_config.go:497-543 | The first hit of the first pass that hits anything, and only then the nearest key |
| Deploy.GitTreeIsClean | internal/cli/cmd_site_ops.go:631-651 | Clean exactly when the status can be read and every line is blank or untracked |
| Deploy.LastHealthySha | internal/cli/cmd_site_ops.go:604-617 | The commit of the newest OK deployment of the site that has one, the running one excepted, or "" |
| DeployHistory.LastHealthyIsNewest | internal/cli/cmd_site_ops.go:604-617 | Said of the whole history: the commit is that of a healthy record of the site exactly when no later record of the site is healthy and fewer than twenty of its records come after it |
| DeployHistory.NoneHealthy | internal/cli/cmd_site_ops.go:604-617 | And there is none exactly when the history cannot be read or none of the site's last twenty records is healthy |
| Deploy.NewestAreOfHistory | internal/state/repo_ops.go:120-151 | The history consulted holds only records of this site, and no more than were asked for |
| Deploy.FirstHealthyIsRecorded | internal/cli/cmd_site_ops.go:604-617 | A commit taken from history is that of a recorded healthy deployment, and "" means there is none |
| Deploy.Server.RunSteps | internal/cli/cmd_site_ops.go:439-451 | The wanted steps run in order up to the first that fails |
| DeploySteps.StepsInOrder | internal/cli/cmd_site_ops.go:421-451 | The steps run are pull, pre-deploy hook, install, build, migrate and collectstatic, those asked for and no others, in that order up to and including the first that fails |
| Deploy.Server.RecoverFrom | internal/cli/cmd_site_ops.go:454-517 | A failed restart is answered by a revert if that is safe, and the record says which way it went |
| Deploy.Server.ConcludeWith | internal/cli/cmd_site_ops.go:529-551 | The post-deploy hook is reported and never reverts; the commit recorded is the one found afterwards |
| Deploy.Server.Finish | internal/cli/cmd_site_ops.go:410-419 | The record says OK exactly when the run returns no error, and only its own row is written |
| DeploySteps.OkIff | internal/cli/cmd_site_ops.go:410-419 | A record is OK exactly when every step asked for succeeded, the service came up if it was restarted, the post-deploy hook succeeded if there is one, and the deploy could be noted on the site |
| DeploySteps.FailureIs | internal/cli/cmd_site_ops.go:421-562 | Where the site is up, what went wrong is the hook or else the note; where a step failed, it is that step |
| DeploySteps.RecordSays | internal/cli/cmd_site_ops.go:410-554 | The steps, the health and the commit a record names, for every run |
| Deploy.Server.Deploy | internal/cli/cmd_site_ops.go:376-569 | The whole run, as a function of the world it finds and what the commands answer |
| DeployLaws.StartedAndFinishedOnce | internal/cli/cmd_site_ops.go:399-419 | The record is started first and finished last, each once, says OK exactly without an error, and the earlier history is untouched |
| DeployLaws.NoRestartNoChange | internal/cli/cmd_site_ops.go:439-451 | A step that fails leaves the serving commit alone: nothing is restarted and nothing reset |
| DeployLaws.ResetOnlyWhenSafe | internal/cli/cmd_site_ops.go:482-497 | `git reset --hard` is issued exactly when the restart failed and a revert is safe: with a clean tree, to a target that is not empty and not HEAD where HEAD could be read |
| DeploySteps.ResetIff | internal/cli/cmd_site_ops.go:482-497 | Said of what the commands answer: a reset to a commit is issued exactly when the steps succeeded and the restart failed, the commit is the target, not empty and not HEAD where HEAD could be read, and the status lists nothing but untracked files |
| DeploySteps.CheckoutEnds | internal/cli/cmd_site_ops.go:439-551 | Where HEAD and the tree are when the run ends, for every run: the target after a reset, what a failed reset or the post-deploy hook left, and otherwise what the steps left |
| DeploySteps.ServiceEnds | internal/cli/cmd_site_ops.go:453-517 | What the service is serving then: what it did before if it was not to be restarted, the commit it was restarted into, the target of a successful revert, or nothing |
| DeploySteps.HistoryEnds | internal/cli/cmd_site_ops.go:399-419 | And the history is the earlier one and the run's record, or an unfinished one where closing it failed |
| DeployLaws.ResetAtMostOnce | internal/cli/cmd_site_ops.go:494-500 | And no more than once in a run |
| DeployLaws.RevertOutcomes | internal/cli/cmd_site_ops.go:494-517 | Rolled back means HEAD and the service are at the target; rollback-failed is reported exactly when the reset or the second restart failed; nothing-safe exactly when no revert was possible |
| DeployLaws.OkRecordsHead | internal/cli/cmd_site_ops.go:545-554 | An OK record names the commit HEAD was at when the run ended, or where that cannot be read the one it started from |
| DeployLaws.OkCommitServedIff | internal/cli/cmd_site_ops.go:453-554 | The commit an OK run records was restarted into during that run exactly when the run included a restart and the record is of the HEAD that restart found: the post-deploy hook did not move it or, where HEAD cannot be read at the end, the steps had left it where the run began |
| DeployLaws.RunCounts | internal/cli/cmd_site_ops.go:399-419 | One run starts and finishes its own record and no other |
| DeployLaws.EveryRecordFinishedOnce | internal/cli/cmd_site_ops.go:399-419 | Over any sequence of deploys and whatever happens between them, each started record is finished exactly once |
| DeployLaws.ProvenIsKept | internal/cli/cmd_site_ops.go:481-485 | A run that restarts when it ends OK keeps it true that every healthy record names a commit the service has restarted into |
| DeployLaws.RevertGoesToAProvenCommit | internal/cli/cmd_site_ops.go:481-497 | So after any sequence of such runs a revert target taken from history is a commit that has restarted successfully before |
| DeployLaws.UnrestartedCommitCountsAsHealthy | internal/cli/cmd_site_ops.go:604-617 | Two deploys, the first without a restart: when the second fails to restart, the checkout is reset to a commit the service never ran |
| Compose.Inherited | internal/cli/compose.go:61-77 | A step inherits exactly the global flags that are set, each once |
| Compose.Composer.constructor | internal/cli/compose.go:55-59 | A composer starts with nothing to undo |
| Compose.Composer.Run | internal/cli/compose.go:80-90 | One step is called with the inherited flags, and remembered only if it succeeded, can be undone and was no dry run |
| Compose.Composer.Unwind | internal/cli/compose.go:96-106 | Everything remembered is undone, most recent first, failures notwithstanding |
| Compose.Composer.RunSteps | internal/cli/compose.go:117-121 | Steps are called up to and including the first that fails |
| Compose.Composer.Execute | internal/cli/compose.go:109-123 | Succeeds exactly when every step does; the calls of the whole run, undos included |
| Compose.CompletedIs | internal/cli/compose.go:117-121 | A step completes exactly when it succeeds after all earlier ones did |
| Compose.UnwindingReverses | internal/cli/compose.go:96-106 | Each remembered step is undone once, in strictly reverse order, whatever the answers |
| Compose.UnwindingSkipsKept | internal/cli/compose.go:86-88 | Undoing what was remembered is undoing all that completed, less what is kept |
| Compose.CallsOfARun | internal/cli/compose.go:109-123 | A run that fails at step k calls the steps up to k and then the undo of every earlier step that has one, in reverse; a dry run undoes nothing |
| Compose.CallOf | internal/cli/compose.go:80-123 | Each call is a step with the inherited flags behind it, or the undo, with --yes behind it, of a step that succeeded earlier in the same run |
| Conservation.UndoFindsWhatItLeft | internal/cli/compose.go:92-106 | When its turn comes, a step's undo finds what the step left but for what later steps touch, and what it restores is as the step found it |
| Conservation.UnwindingRestores | internal/cli/compose.go:92-106 | After unwinding, a resource is what it was before the first of the steps touching it that is taken back, if the undo of that step restores it, or what the steps left if none is taken back |
| Conservation.FailedRunRestores | internal/cli/compose.go:108-123 | The same for the whole of a failed run, for every resource and whichever undos failed |
| Conservation.FirstTouchDecides | internal/cli/compose.go:108-123 | So a resource is as the run found it if no completed step touched it or the first that did is taken back and restores it, and as the completed steps left it if none that touched it is taken back |
| Conservation.NothingLeftBehind | internal/cli/compose.go:108-123 | If every step that completed is taken back and each undo restores what no earlier step touches, the world after a failed run is exactly the one before it |
| Conservation.FirstTouchRemoves | internal/cli/compose.go:92-123 | Where undos delete: a resource of a failed run is as the run found it if no completed step touched it, nothing if the first that did is taken back and answers for it, and as the completed steps left it if none that touched it is taken back |
| Conservation.DeletingTakesBackIff | internal/cli/compose.go:92-106 | An undo that deletes takes its step back exactly when the step had found nothing of what it deletes |
| DatabaseName.DatabaseNameFor | internal/cli/cmd_new.go:453-468 | Lower-cased, everything but letters and digits an underscore, trimmed and cut to 38 bytes |
| DatabaseName.DerivedNameIs | internal/cli/cmd_new.go:453-468 | Said of the domain: from its first letter or digit on, at most 38 bytes, up to the last letter or digit among those, each lower-cased and anything else an underscore |
| DatabaseName.UsableNameIs | internal/validate/mongo.go:41-79 | The validator takes one to 38 letters, digits, hyphens and underscores, no hyphen first, and none of three names in any case |
| DatabaseName.DerivedNameUsable | internal/validate/mongo.go:41-79 | A derived name passes the validator exactly when the domain has a letter or a digit and does not shadow one of the server's own databases; it never exceeds the limit and never begins or ends in an underscore |
| DatabaseName.HyphensShadowAdmin | internal/cli/cmd_new.go:102-107 | Labels that derive the name of a server's own database |
| NewStack.MakePlan | internal/cli/cmd_new.go:54-137 | The plan, or the first reason to refuse; a note exactly when the tenant is already there |
| NewParts.StepsAre | internal/cli/cmd_new.go:63-136 | The tenant if it is missing, the key if the tenant is there, the site, the database if asked for, and the certificate last |
| NewParts.TenantAsked | internal/cli/cmd_new.go:69-78 | What `user add` reads back from its flags is the tenant and the key given |
| NewParts.KeyAsked | internal/cli/cmd_new.go:79-88 | `key add` reads back the tenant, the scope, the label and the key given |
| NewParts.SiteAsked | internal/cli/cmd_new.go:90-97 | `site add` is given the domain, the owner, no TLS and then the recipe's own flags, all of them in order |
| NewParts.DatabaseAsked | internal/cli/cmd_new.go:99-118 | `db create` reads back the name given or derived, the owner, the site and the variable; its undo drops that database |
| NewParts.CertificateAsked | internal/cli/cmd_new.go:120-134 | `cert issue` reads back the domain and the address given |
| NewLaws.WhatIsKept | internal/cli/cmd_new.go:69-135 | The steps without an undo are the key for an existing tenant and the certificate, and of the two only the certificate says why |
| NewLaws.DeletesOnlyItsOwnTenant | internal/cli/cmd_new.go:63-78 | A run deletes the tenant only if GetUser did not find it and `user add` succeeded in the same run, whatever the commands do |
| NewLaws.FailedNew | internal/cli/cmd_new.go:63-137 | After a failed run whose undos succeed, tenant, site and database are gone, each if its step had completed, also where it was there before; a key given to an existing tenant stays; the rest is as it was. So the server is as it was if and only if none of those was there and no key changed anything |
| NewLaws.TenantTakesAlong | internal/cli/cmd_user.go:359-379 | Taking back the tenant takes along what it owns, the site among it even if the undo of the site failed |
| NewLaws.KeyStaysBehind | internal/cli/cmd_new.go:79-88 | A run after which the key is still there |
| NewFailure.CertificateFails | internal/cli/cmd_new.go:89-135 | A run whose certificate is refused, for a tenant that is there or not, on every server: with commands that leave alone what is there, a `db drop` that leaves the site and a `user delete` that takes its sites along, it ends without tenant (if its step was planned), site and database, and with everything else |
| NewFailure.RepeatedNewDeletes | internal/site/site.go:117-122 | A stack that is there, given again: its site and its database are deleted |
| NewFailure.StepsFit | internal/cli/cmd_db.go:685-700 | Where each command of that run is called, it and its undo keep to their region, and the undo deletes its part |
| ImportPlan.IsWanted | internal/cli/cmd_import.go:100-110 | Everything without --only, and with it the tenants named |
| ImportPlan.Owners | internal/cli/cmd_import.go:145-148 | A site belongs to the owner its last record names |
| ImportParts.OwnerIsLast | internal/cli/cmd_import.go:145-148 | That owner is the one of the last record of the domain, and nobody exactly where the export has no record of it or its last names nobody |
| ImportPlan.AddUsers | internal/cli/cmd_import.go:117-140 | Tenants in order of name: skipped, noted or planned |
| ImportPlan.AddKeyOf | internal/cli/cmd_import.go:151-193 | One key: revoked, empty, out of scope or installed ones are not planned, the first and the last with a note |
| ImportPlan.AddKeys | internal/cli/cmd_import.go:142-195 | Keys in order of label |
| ImportPlan.AddSites | internal/cli/cmd_import.go:197-252 | Sites in order of domain, each with all its steps |
| ImportPlan.StepsForSite | internal/cli/cmd_import.go:208-250 | The steps of one site |
| ImportParts.StepsOfSite | internal/cli/cmd_import.go:200-250 | Its creation, each alias, one step for its hooks exactly when it has one, its own units, and its disabling exactly when it was off |
| ImportParts.HooksComeBack | internal/cli/cmd_import.go:222-226 | What `site hook set` reads back is the site and its hooks, the one before a deploy and the one after it, whatever they are |
| ImportPlan.SiteArgvFor | internal/cli/cmd_import.go:261-319 | The `site add` of a site: the flags of its runtime, those of every runtime, and one for each relaxed directive |
| ImportPlan.MakePlan | internal/cli/cmd_import.go:87-254 | Refused exactly when the export is newer than this binary or the store does not open; otherwise the plan for some ordering of the records by name, label and domain |
| ImportLaws.PlanRestores | internal/cli/cmd_import.go:117-252 | What is in a plan, in whatever order: a step for each wanted tenant that is missing, each live key in scope that is not installed, and each part of each wanted site that is missing; nothing else |
| ImportParts.KeyPlannedIff | internal/cli/cmd_import.go:151-188 | A key is planned exactly when it is live, has a body, is not found by its fingerprint, and all are wanted or the tenant it belongs to is listed |
| ImportLaws.OnlyNamelessKeysMissing | internal/cli/cmd_import.go:179-188 | After an import a key is planned again exactly when it was planned before and carries no fingerprint |
| ImportLaws.ImportTwice | internal/cli/cmd_import.go:87-254 | Once a plan has run to its end, planning the same export again, in any order, yields no steps exactly when every key restored carries a fingerprint |
| ImportOrder.SiteRises | internal/cli/cmd_import.go:208-250 | A site is created first; aliases, hooks, units and the final disabling follow in that order |
| ImportOrder.ImportInOrder | internal/cli/cmd_import.go:117-252 | Tenants precede keys and keys sites; every step about a site follows the one that creates it, with nothing about another site in between |
| ImportOrder.UndoableRestores | internal/cli/cmd_import.go:135-226 | The steps that have an undo are exactly those that create a tenant or a site |
| ImportOrder.DeletesOnlyWhatItImported | internal/cli/cmd_import.go:117-252 | A failed import deletes only tenants and sites that were not found when it was planned and whose creation succeeded in the same run |
| ImportFailure.FailedImport | internal/cli/cmd_import.go:352-353 | After a failed import whose undos succeed, every tenant and site a completed step was to create is gone, with its keys and the sites it owned, also where it was there before; the other keys are as the run left them; the rest is as it was. So the server is as it was if and only if none of the former was there and adding the latter changed nothing |
| ImportFailure.FailedImportRestores | internal/cli/cmd_import.go:352-353 | Where the store answers and knows every tenant and site of the server, a failed import leaves everything as it was but the keys no deletion takes away, and the server as it was if and only if adding those changed nothing |
| ImportFailure.ClaimedIsMissing | internal/cli/cmd_import.go:117-207 | Because then what an import plans to create is not there |
| ImportFailure.WhichKeysStay | internal/user/user.go:510-525 | A planned key stays exactly when it is not a user-scope key of a tenant the same plan creates |
| ImportFailure.FirstCreates | internal/cli/cmd_import.go:117-252 | The first step of a plan to touch a tenant or a site is to create it or its owner, and can be undone |
| ImportFailure.GlobalKeyStays | internal/cli/cmd_import.go:189-193 | An import after whose failure an administrator's key is still there |
| ImportPurge.AliasFails | internal/cli/cmd_user.go:359-379 | An import that fails at an alias, on every server, with additions that leave alone what is there and deletions of tenants that take their sites along: the undos succeed, and the site, the tenant and every other site of the tenant are gone |
| ImportPurge.PurgeTakes | internal/cli/cmd_user.go:359-379 | Once the site is gone, deleting the tenant takes along the sites it owned before the import, and no others |
| ImportPurge.BlindImportDeletes | internal/cli/cmd_import.go:121-124 | Where lookups fail, a tenant that is there is planned, found and deleted with every site it owns |
| ImportPurge.PurgeIsConfined | internal/cli/cmd_user.go:359-379 | On a server that had neither the tenant nor a site of its own, that is the server as it was |
| ImportReady.ImportReady | internal/cli/cmd_key.go:157-168 | Every step of a plan finds its tenant or site, in the store or created earlier, and adds no key that is already there, exactly when every planned key is acceptable, not installed and not for a site that is not here already, every owner is here or planned, and no two planned keys share a fingerprint |
| ImportReady.UnreadyNeverCompletes | internal/cli/compose.go:108-123 | Where commands refuse what they cannot look up, and keys that are already there, a plan with a step that is not ready never runs to its end |
| ImportReady.SiteKeyStopsImport | internal/cli/cmd_import.go:142-195 | So no import of a live key for a site that is not here runs to its end, even when the export holds the site |
| ImportReady.TwinsStopImport | internal/sshkey/manager.go:219-233 | Nor does one in which two planned keys have the same authorized line |
| ImportTwins.PlanHasNoTwins | internal/sshkey/manager.go:219-233 | No plan adds a fingerprint twice, in whatever order its keys are taken, exactly when no planned key of the export is there twice and no two share one |
| ImportReady.MovedSiteKey | internal/cli/cmd_import.go:142-252 | A tenant, its site and a key for that site, moved to an empty server: the import stops before its end |
| ImportFlags.UserComesBack | internal/cli/cmd_import.go:127-134 | The replayed `user add` asks for the tenant the export holds exactly when it had no password login and was not disabled |
| ImportFlags.UserReplayed | internal/cli/cmd_import.go:127-134 | It is given the name, shell, comment, quota, memory limit and SFTP restriction of every tenant, whatever those look like, and nothing else |
| ImportFlags.KeyComesBack | internal/cli/cmd_import.go:189-193 | The replayed `key add` asks for the grant the export holds exactly when the key had no expiry, source addresses, preset, SFTP restriction or shell permission |
| ImportFlags.KeyReplayed | internal/cli/cmd_import.go:189-193 | It is given the scope, the whole authorized line, and the tenant, site and label of every key, and no limits |
| ImportFlags.ExpiredKeyComesBack | internal/cli/cmd_import.go:151-193 | An expired key that is planned and comes back without its expiry |
| ImportFlags.UnitComesBack | internal/cli/cmd_import.go:491-511 | A replayed job asks for the unit the export holds exactly when it had no instance count, and a worker exactly when it also had no schedule, timeout or persistence; one that was off comes back off |
| ImportSettings.SiteComesBack | internal/cli/cmd_import.go:261-319 | The replayed `site add` asks for the site's owner, runtime, every setting and every relaxed directive exactly when each setting is one its runtime passes on, with a value, or is at its flag's default, and no directive is empty or holds a comma |
| ImportSettings.PlainSiteComesBack | internal/cli/cmd_site.go:196-246 | A site that was added with the required flags only comes back, of whatever runtime |
| ImportSettings.StartCommandIsLost | internal/cli/cmd_site.go:216-245 | A site with a start command, a process manager or HSTS, which no runtime passes on |
| ImportSettings.OfferedArePassed | internal/cli/cmd_site.go:201-246 | For each runtime, an import passes on exactly the flags `site add` describes as being for it, but for the start command, the process manager, HSTS, and the instances of a bun site |
| ImportSettings.BunInstancesAreLost | internal/cli/cmd_import.go:282-286 | A bun site with more than one instance is rebuilt with one |
| ImportSettings.RelaxedComesBack | internal/cli/cmd_site.go:246 | A list flag given once for each directive reads back as the directives exactly when none is empty or holds a comma |
| CommandLine.CommandLine | internal/cli/compose.go:161-171 | The words of the line, those with a blank or a quote in single quotes |
| CommandLine.ShownIs | internal/cli/compose.go:161-171 | An argument is printed bare exactly when it has no blank and no quote |
| CommandLine.ScanQuoted | internal/cli/compose.go:165-167 | A quoted argument is read back whole by the rules of sections 2.2.1 and 2.2.2, at the start of a word or inside one |
| CommandLine.ScanLine | internal/cli/compose.go:161-171 | The words read from a printed line are no longer than what was printed, and as long only where every argument is faithful |
| CommandLine.PastedBack | internal/cli/compose.go:156-171 | Split by a POSIX shell, the line is "ratline" and the arguments exactly when each argument is non-empty and either quoted or free of bytes special to a shell |
| EnvFile.EnvEditor.constructor | internal/cli/cmd_site_env.go:36-71 | Reading establishes the invariant: the order has no duplicates and its elements are exactly the keys |
| EnvFile.EnvEditor.AddOne | internal/cli/cmd_site_env.go:53-70 | One line: preserved, or a binding that keeps its first place and takes the last value |
| EnvLines.LineBinds | internal/cli/cmd_site_env.go:53-70 | A line binds the name before its first '=' to the text behind it, white space around the line and the name aside |
| EnvLines.LineBindsNothing | internal/cli/cmd_site_env.go:53-63 | The lines that bind nothing are the blank ones, comments, and those without '=' |
| EnvFile.EnvEditor.Set | internal/cli/cmd_site_env.go:73-89 | Sets exactly the allowed names and values, refuses the rest unchanged, and keeps the invariant |
| EnvLines.SettableAre | internal/validate/misc.go:288-328 | Allowed are names of at most 128 bytes but four the loader acts on, and values of at most 32768 bytes without NUL, newline or carriage return |
| EnvFile.EnvEditor.Unset | internal/cli/cmd_site_env.go:91-104 | Removes one name from values and order, reports whether it was there, and keeps the invariant |
| EnvFile.EnvEditor.RenderText | internal/cli/cmd_site_env.go:106-125 | The preserved lines, a blank line where there were any, and the bindings in order |
| EnvLines.FileIs | internal/cli/cmd_site_env.go:106-125 | Line by line: the preserved lines that are not blank, in order; a blank one exactly when any were preserved; and name=value for each name in its place |
| EnvFile.ParseMeans | internal/cli/cmd_site_env.go:53-70 | Reading keeps the other lines in order, and of the bindings the last value of each name in first-appearance order |
| EnvFile.ParseIsOrdered | internal/cli/cmd_site_env.go:53-70 | Whatever the file, what is read satisfies the invariant |
| EnvFile.RemoveUndoesPut | internal/cli/cmd_site_env.go:73-104 | Unsetting a name that was just added leaves what there was |
| EnvRoundTrip.ReadRendered | internal/cli/cmd_site_env.go:53-125 | Reading what was rendered gives the same bindings in the same order, and the preserved lines that are not blank |
| EnvRoundTrip.OnePassSuffices | internal/cli/cmd_site_env.go:53-125 | Rewriting keeps every binding, and settles after one pass exactly when the file had a line that is not a binding |
| EnvRoundTrip.TwoPassesSuffice | internal/cli/cmd_site_env.go:53-125 | After two passes it has settled, for every file |
| EnvRoundTrip.WrapperReadsWhatEditorWrites | cmd/ratline-shell/exec.go:169-254 | For valid names, plain values and preserved lines that end in no lone backslash, the wrapper reads exactly the editor's pairs, in the editor's order |
| EnvRoundTrip.PreservedAssignNothing | cmd/ratline-shell/exec.go:169-194 | A line the editor preserves assigns nothing for the wrapper either |
| EnvRoundTrip.StandsForItself | cmd/ratline-shell/exec.go:216-254 | A value stands for itself exactly when it is verbatim, and no value for a longer one |
| EnvRoundTrip.SetValueArrives | cmd/ratline-shell/exec.go:216-254 | A value EnvValue accepts, set in an empty file and rendered, reaches the service unchanged exactly when it is plain |
| EnvRoundTrip.SetReachesTheService | cmd/ratline-shell/exec.go:276-321 | A plain value set on a name other than PATH is what the service is started with, whatever its own environment said |
| ExecEnv.SplitContinuedLines | cmd/ratline-shell/exec.go:197-214 | A line that ends in an unescaped backslash is joined with the next |
| ExecValues.JoinsNext | cmd/ratline-shell/exec.go:197-214 | A line joins the next, less its backslash, exactly when it ends in one that is not behind another |
| ExecEnv.ReadQuoted | cmd/ratline-shell/exec.go:216-254 | The loop over a quoted value: what it stands for, where it ends, or that it does not end |
| ExecEnv.ReadUnquoted | cmd/ratline-shell/exec.go:216-254 | The loop over an unquoted value: a backslash keeps the next byte |
| ExecEnv.UnquoteEnvValue | cmd/ratline-shell/exec.go:216-254 | The value between blanks, quoted or not, or why it is malformed |
| ExecValues.Decomposes | cmd/ratline-shell/exec.go:216-254 | Every text is written in bytes that stand for themselves and bytes behind a backslash, up to a quote, the end, or one last backslash |
| ExecValues.QuotedMeans | cmd/ratline-shell/exec.go:224-247 | Between quotes of either kind such writing stands for its bytes without the backslashes, if blanks or a comment follow, and is malformed if anything else does |
| ExecValues.OpenQuoteMeans | cmd/ratline-shell/exec.go:224-240 | A quote that is never closed is malformed |
| ExecValues.UnquotedMeans | cmd/ratline-shell/exec.go:248-254 | Without quotes it stands for the same, less outer blanks; a last backslash stands for itself |
| ExecEnv.ParseEnvFile | cmd/ratline-shell/exec.go:169-194 | The assignments in order, and one warning for every line that is neither one nor skipped |
| ExecValues.LineWithEquals | cmd/ratline-shell/exec.go:169-194 | One line: assigned, not an assignment, malformed, or refused for a NUL |
| ExecValues.FileMeans | cmd/ratline-shell/exec.go:169-194 | A file of names with quoted values assigns to each name, in order, the bytes its value was written for |
| ExecValues.WarnsOnce | cmd/ratline-shell/exec.go:169-194 | As many warnings as lines that say something and assign nothing |
| ExecEnv.ReadNamesAreValid | cmd/ratline-shell/exec.go:256-269 | Every name read is a valid one, so none holds '=' |
| ExecEnv.MergeEnv | cmd/ratline-shell/exec.go:290-312 | One slot for each name, in first-appearance order, overwritten by later entries |
| ExecValues.EntryNameIs | cmd/ratline-shell/exec.go:290-312 | An entry of the environment has the name before its first '=', and without one it is its own name |
| ExecEnv.MergeOverrides | cmd/ratline-shell/exec.go:290-321 | After the merge a name has the file's last value, or else the value it had before |
| ExecEnv.MergedNames | cmd/ratline-shell/exec.go:290-312 | Each name appears once, in the order of first appearance |
| ExecEnv.LookupEnv | cmd/ratline-shell/exec.go:314-321 | The last entry of the name, or "" |
| ExecEnv.LookupIsLast | cmd/ratline-shell/exec.go:314-321 | On well-formed entries that is the last value bound to the name |
| ExecEnv.WithoutPath | cmd/ratline-shell/exec.go:276-287 | The other pairs in order, and whether PATH was among them |
| ExecEnv.PathIsTheUnits | cmd/ratline-shell/exec.go:271-321 | PATH stays what the unit made it for every file, and every other name gets the file's last value |
| Bindings.LastOfIsLast | cmd/ratline-shell/exec.go:290-321 | What "the last value of a name" is: the last entry of that name, and none exactly when there is no entry |
| SitePaths.ResolveDeepest | cmd/ratline-shell/main.go:293-311 | The loop ends, with the longest prefix that resolves, resolved, followed by exactly the remaining components |
| SitePaths.DeepestIsLongest | cmd/ratline-shell/main.go:293-311 | No longer prefix resolves |
| SitePaths.PathEscapes | cmd/ratline-shell/main.go:277-289 | The verdict as taken on strings |
| SitePaths.CleanStep | cmd/ratline-shell/main.go:277-283 | What cleaning a path means: an empty element and "." stay, ".." goes up and stops at the top, and any other element goes down |
| SitePaths.FlaggedIff | cmd/ratline-shell/main.go:245-273 | An argument is flagged exactly when it names a path that resolves outside: the text behind the first '=' of an option, or a bare argument other than the transfer root |
| SitePaths.EscapesIffNotBelow | cmd/ratline-shell/main.go:277-289 | A path is let through exactly when it resolves to the site directory or, component by component, below it; where that is "/", only to "/" itself |
| SitePaths.PrefixIsDescent | cmd/ratline-shell/main.go:284-288 | The string prefix test with a slash is proper descent of components |
| SitePaths.EscapingPath | cmd/ratline-shell/main.go:245-273 | The first argument that names a path which resolves outside the site, as the value of an option or by itself, and "" exactly when none does |
| SftpPaths.ResolveStaysInside | cmd/ratline-shell/sftp.go:63-70 | For every site directory, SFTP hands out a path exactly when it resolves to the site or below, of "/" only to itself, and then the root joined with the cleaned request |
| SftpPaths.NoFollowParentInside | cmd/ratline-shell/sftp.go:76-86 | For every site directory, the no-follow form hands out the root, or an entry whose directory resolves inside the site |
| SftpPaths.SessionsAgree | cmd/ratline-shell/sftp.go:63-70 | For a relative argument, rsync's check and SFTP's give the same verdict on every file system exactly when the argument never climbs above its start, or the site directory is "/" |
| SftpPaths.PathsTellApart | cmd/ratline-shell/main.go:277-289 | Where the two checks look at different paths, there is a file system on which one refuses what the other hands out |
| SftpPaths.ClimbingDisagrees | cmd/ratline-shell/main.go:277-289 | One such argument and file system: "../x" is refused as an argument, and for SFTP it is the site's own file x, on every site directory |
| Decimal.NumeralDenotes | internal/cli/wizard_extra.go:430-450 | A numeral denotes its number and has no superfluous zero |
| Decimal.NumeralFits | internal/cli/wizard_extra.go:434-435 | Every 64-bit integer above the least fits twenty bytes, and exactly those of nineteen digits and a sign fill them |
| Decimal.WriteDigits | internal/cli/wizard_extra.go:440-444 | The loop writes the digits from the right and never leaves the buffer |
| Decimal.ItoaFast | internal/cli/wizard_extra.go:430-450 | The numeral of every 64-bit integer but the least, for which only the sign is written |
| Decimal.OnlyTheLeastIsLost | internal/cli/wizard_extra.go:430-450 | So the least integer is the one exception |

## Left out

- Bytes beyond ASCII: Unicode case folding, white space and validity are not modelled.
- `strconv.ParseFloat` in FormatScalar is any predicate whose members hold no blank, '#' or quote, and `filepath.EvalSymlinks` any partial function on clean paths.
- `DefaultYAML` is a parameter: what KnownKeys and KeyExists promise is proved for every file, not for the shipped one.
- Compose.Composer.Execute: a fresh composer, as every command makes one; a composer that already remembers steps of an earlier plan is not modelled.
- Conservation.FailedRunRestores: what a command and its undo touch, in the worlds of the run where they are called, is a hypothesis and not derived from the commands; a command that fails is taken to change nothing. What an undo leaves of a resource that it does not restore is not said.
- NewLaws.FailedNew: the keys of a tenant that was already there are a resource of their own, what a missing one turns out to own is a parameter, and the attachments of a database to other sites belong to the database.
- ImportFailure.FailedImport: what a command touches is a hypothesis here too, about the worlds where it is called; the sites a tenant owned before are a parameter, and a key of a site the run creates cannot have been added (ImportReady.SiteKeyStopsImport).
- ImportFlags.KeyComesBack: the option string rendered into authorized_keys and the `--no-agent-forwarding`, `--no-port-forwarding` and `--no-pty` restrictions that only show in it.
- ImportReady.ImportReady: the other reasons a command has to refuse, such as a malformed name or a key for a site whose exported tenant does not own it; and a domain that is in the export twice: `site add` of a site that is there succeeds and changes nothing for the same configuration, and refuses any other. `user add` of a tenant that is there succeeds and changes nothing.
- ImportSettings.SiteComesBack: a number is its numeral, and nothing for zero; quotes in the value of a list flag; and what the server chooses itself (slug, port, and whether a Python application is ASGI when `--asgi` is not given).
- ImportLaws.ImportTwice: a store that answers; when its lookups fail, everything wanted is planned again.
- Deploy.Server.Deploy: the lookups before the deployment is started, logging and the wording of errors are left out; a pull is one command with one answer.
- Deploy.LastHealthySha: deployments of one site that started in the same second are ordered by when they were recorded.
- ConfigLaws.SetAbsentKeepsOthers: adding a key to a file with orphaned or oddly indented lines can change which section those lines belong to, so the file must be well formed.
- ConfigUnset.UnsetKeepsOthers: likewise, and the key must be a leaf: unsetting a section leaves its children to the section above.
- Atomic writes, file ownership and locking: an edited file is its new text.
- `rehearse`, `summarise` and the other printing of plans, apart from the command lines in them.
- The resolution of the program to run (`resolveProgram`), the file-size limit and the ownership checks on `.env`.
- The site, user, database, certificate and runtime managers, the MCP server, the panel and the wizards.
