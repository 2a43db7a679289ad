# OfflinePM command-line tool, modelled in Dafny

OfflinePM keeps copies of project directories in a store, `~/.offlinepm`. It
offers these commands:

- `offlinepm -s` saves the current directory into the store. The archive is
  named after the directory.
- `offlinepm -c <name>` checks an archive out. It merges the archive into
  `./<name>`.
- `offlinepm init` scaffolds a `package.offlinepm.json` manifest and a
  `README.md`. It writes each file only when it is not there yet.
- `offlinepm -r` renders `package.offlinepm.json` as a whole `README.md`:
  the project heading, the description, a table of the functions, the
  install command and a usage section.

Every copy skips entries named `node_modules` or `.git`, at every depth.

This project models `cli.js` in five modules:

- `FileTree` is the disk as a tree.
  - A `Node` is a `File(content)` or a `Dir(entries)`, and a path is a
    sequence of names.
  - Pure functions give the meaning of each filesystem call the tool makes:
    `MkdirAll` (`mkdir -p`), `Prune` (`rm -rf`), `CanCopyFile` and
    `CanWriteFile` (when `copyFile` or `writeFile` succeed), `ReadDir`, and
    `Graft` (putting a node at a path).
- `Sync` gives the meaning of `copyDirectory`.
  - `Filter` drops the excluded entries.
  - `Merge` puts the source tree onto the destination: files overwrite,
    directories merge, and destination-only entries stay.
  - `Fits` holds when no directory lands on a file and no file lands on a
    directory. A clash is an error of `mkdir` or `copyFile`.
  - `CopyTree` is the whole effect of one copy.
  - The lemmas cover:
    - exclusion, content preservation and overwrite;
    - "nothing else changes";
    - idempotence;
    - independence from the order in which `readdir` lists entries.
- `Readme` holds `convertJsonToReadme`'s template as a pure function
  `Render` from a parsed manifest to text. Missing or empty fields take the
  JavaScript `||` defaults. The lemmas split the output back into its lines
  and each row back into its cells.
- `Cli` holds `main`'s `switch` as a pure function `Dispatch` from the
  arguments to a command. `Verbs` is a table to check it against.
- `Commands` is the imperative part.
  - A `FileSystem` object holds the disk in a field `root`. It has one method
    per filesystem call.
  - `CopyDirectory` recursively loops over the `readdir` entries, in
    whatever order they come, with one `mkdir` or `copyFile` per entry.
  - `SaveProject`, `CheckoutProject`, `Init` and `ConvertJsonToReadme` are
    methods with the same steps as the JavaScript functions.
  - `Execute` is `main`.
  - Each method is proved equal to a pure function: `CopyTree`, `Saved`,
    `CheckoutResult`, `Scaffolded` or `Converted`. `Execute` returns
    `ExitStatus`. After a successful `init`, `-s` or `-c`, and after every
    `-r`, it leaves the disk that command's function gives. A checkout
    without a name or without an archive of that name leaves the disk as it
    was. The lemmas about those functions state what the tool
    promises.

Two details of `cli.js` that the model keeps:

- The command verbs are `init`, `-s`/`--save`, `-r`/`--read`,
  `-c`/`--checkout`, `-l`/`--list`, `-h`/`--help` and `-v`/`--version`.
- A row with no import and no description renders as `` | f | a, b | `` |  | ``,
  with two spaces before the closing bar (see `Readme.ExampleRow`).

## Model

| member | source | states |
|---|---|---|
| FileTree.ReadDir | cli.js:113 | `readdir` succeeds exactly on a directory, lists exactly its entry names, and flags each entry as a directory exactly when it is one |
| FileTree.MkdirAllGraft | cli.js:112 | a successful `mkdir -p` leaves a directory at the path: the existing one, or a new empty one; nothing else changes but the path to it |
| FileTree.MkdirAllExisting | cli.js:112 | `mkdir -p` of an existing directory changes nothing |
| FileTree.MkdirAllChild | cli.js:112 | making a subdirectory of an existing directory fails exactly when a file has that name |
| FileTree.MkdirAllPreserves | cli.js:101 | `mkdir -p` changes nothing at a path that is not on the way to its target |
| FileTree.LookupPrune | cli.js:104 | after `rm -rf` nothing is left at the path |
| FileTree.LookupPruneDisjoint | cli.js:104 | `rm -rf` changes nothing at a path outside the removed one |
| FileTree.GraftAbsentKeepsFiles | cli.js:83 | writing a new file where nothing stood changes no existing file |
| Sync.FilterLookup | cli.js:119-121 | a path exists in the filtered tree exactly when it exists in the tree and none of its names is `node_modules` or `.git` |
| Sync.FilterIdempotent | cli.js:119-121 | filtering a filtered tree changes nothing |
| Sync.MergeOntoNothing | cli.js:112-127 | copying onto nothing, or onto an empty new directory, reproduces the source and cannot clash |
| Sync.MergeLookup | cli.js:123-127 | after a merge, source files overwrite, source directories are directories, and wherever the source has nothing the destination is unchanged |
| Sync.MergeIdempotent | cli.js:115-128 | merging the same source again changes nothing and cannot clash |
| Sync.MergedSoFarStep | cli.js:115-128 | copying one more entry changes exactly that destination entry |
| Sync.MergedSoFarDone | cli.js:115-128 | once every entry is copied, the destination listing is the merge |
| Sync.CopyInOrderMerges | cli.js:113-128 | copying the entries one by one in any listing order (each name once) gives the same merged directory |
| Sync.CopyTreeEntries | cli.js:115-128 | after `mkdir` and `readdir`, the copy succeeds exactly when every kept entry fits its destination entry |
| Sync.CopyDirEntry | cli.js:123-124 | the recursive copy of a subdirectory entry succeeds exactly when it fits, and then only that destination entry changes |
| Sync.CopyFileEntry | cli.js:125-127 | the `copyFile` of a file entry succeeds exactly when no directory has its name in the destination, and then only that entry changes |
| Sync.CopyTreeCopies | cli.js:123-127 | every file reachable in the source through non-excluded names is at the same relative path in the destination with the same contents, every such directory is a directory, and the destination exists |
| Sync.CopyTreeKeepsRest | cli.js:119-127 | at every relative path the filtered source lacks, including anything under `node_modules` or `.git`, the destination is what it was |
| Sync.CopyTreeFrame | cli.js:111-129 | nothing outside the destination changes |
| Sync.CopyTreeIdempotent | cli.js:111-129 | copying twice gives the same tree as copying once |
| Readme.SplitJoinInverse | cli.js:154 | joining lines with a separator none of them holds, then splitting on it, gives the lines back |
| Readme.RowCells | cli.js:152-153 | a row splits at `\|` into the padded name, the parameters joined by ", ", the back-quoted import and the description, with empty import and description as empty cells |
| Readme.ExampleRow | cli.js:152-153 | the entry `{ name: "f", parameters: ["a", "b"] }` renders as `` | f | a, b | `` |  | `` |
| Readme.SectionLines | cli.js:147-164 | the functions section is the header, the rule and one row per entry, or "No functions defined." when the list is absent or empty |
| Readme.RenderLines | cli.js:157-175 | the rendered document, line by line: the heading, the description or its default, the functions section, the install command and the usage section |
| Readme.EmptyManifestDefaults | cli.js:157-169 | with no name, description or functions the document has 19 lines and uses "# Project", "No description provided.", "No functions defined." and "offlinepm -c project-name" |
| Cli.Dispatch | cli.js:235-268 | an unknown command is reported with the first argument as its verb |
| Cli.Operand | cli.js:249 | the checkout name is the second argument when there is one, absent otherwise |
| Cli.DispatchMatchesTable | cli.js:235-267 | every listed verb, short or long, runs its one command, and any other first argument is an unknown command |
| Cli.ShortAndLongAgree | cli.js:239-263 | each short flag and its long spelling select the same command, and no arguments means help |
| Cli.LaterArgumentsIgnored | cli.js:249 | arguments after the second never change the command |
| Commands.Listing | cli.js:198 | the store's listing exists exactly when the store is a directory and holds its entry names |
| Commands.SaveReplaces | cli.js:101-107 | after a save the archive equals the project minus `node_modules` and `.git`, whatever it held before, and the store is a directory |
| Commands.SaveFrame | cli.js:101-107 | a save changes nothing at any path outside the archive; the store is created only on the way to it |
| Commands.CheckoutGuard | cli.js:182-206 | a missing or empty name, or a missing archive, ends the checkout before any copy; with both present the copy runs |
| Commands.CheckoutMerges | cli.js:206 | into a new project directory checkout puts the filtered archive; in an existing one every path the archive lacks is unchanged |
| Commands.SaveThenCheckout | cli.js:96-208 | saving a project and checking its archive out elsewhere reproduces the project there, less `node_modules` and `.git` |
| Commands.WriteIfAbsentKeeps | cli.js:79-85 | a write-if-absent never changes an existing file, leaves anything at the path as it was, or writes the text where nothing stood |
| Commands.InitNeverOverwrites | cli.js:79-93 | `init` never overwrites an existing file; afterwards the manifest and the README exist, old or newly written |
| Commands.ConvertWritesRender | cli.js:136-177 | a successful conversion read a manifest file that parsed, wrote its rendering to README.md and changed nothing outside README.md |
| Commands.ExitStatusByVerb | cli.js:227-271 | the exit status is 0 or 1; an unknown verb fails, no arguments succeeds, a checkout without a name fails |
| Commands.FileSystem.constructor | cli.js:8 | the store is `.offlinepm` under the home directory |
| Commands.FileSystem.Mkdir | cli.js:112 | `fs.mkdir` with `recursive` as `MkdirAll` |
| Commands.FileSystem.Remove | cli.js:103-105 | `fs.rm` with `recursive` and `force` as `Prune`, failures ignored |
| Commands.FileSystem.Access | cli.js:193 | `fs.access` succeeds exactly when something exists at the path |
| Commands.FileSystem.ReadDirectory | cli.js:113 | `fs.readdir` with file types as `ReadDir` |
| Commands.FileSystem.ReadFile | cli.js:138 | `fs.readFile` gives the file's text and fails on anything but a file |
| Commands.FileSystem.CopyFile | cli.js:126 | `fs.copyFile` succeeds exactly under `CanCopyFile` and then puts the file at the target |
| Commands.FileSystem.WriteFile | cli.js:177 | `fs.writeFile` succeeds exactly under `CanWriteFile` and then puts the text at the target |
| Commands.FileSystem.CopyDirectory | cli.js:111-129 | the loop over the listing, in any order, succeeds exactly when `CopyTree` does and then leaves its result; failed or not, nothing outside the destination changes |
| Commands.FileSystem.SaveProject | cli.js:96-109 | make the store, remove the old archive, copy: succeeds exactly when `Saved` does and leaves its result; nothing outside the archive changes |
| Commands.FileSystem.CheckoutProject | cli.js:181-208 | the outcome is `CheckoutResult`; a missing name or archive leaves the disk untouched; a checkout leaves `CopyTree`'s result; nothing outside `cwd/name` changes |
| Commands.FileSystem.Init | cli.js:76-93 | the manifest and then the README, each written only if absent; succeeds exactly when `Scaffolded` does, and no existing file changes even on failure |
| Commands.FileSystem.WriteUnlessPresent | cli.js:79-85 | `access`, then `writeFile` only when `access` fails |
| Commands.FileSystem.ConvertJsonToReadme | cli.js:131-179 | read, parse and write the rendering: succeeds exactly when `Converted` does, and leaves the disk alone otherwise |
| Commands.FileSystem.Execute | cli.js:224-273 | `main` ends with `ExitStatus`; unknown verbs, help, version and list leave the disk alone; a successful `init`, `-s`, `-r` or `-c` leaves `Scaffolded`'s, `Saved`'s, `Converted`'s or `CopyTree`'s result; `init` never changes an existing file, and `-s` and `-c` change nothing outside the archive or the target |

## Left out

- Real operating-system behaviour is not modelled:
  - permissions, disk-full errors, symbolic links and special files;
  - the home and working directories, which are parameters (`home` and `cwd`);
  - `postinstall.js`, which only creates the store directory.
- Printed output is left out: `showHelp`, the version line, the messages, and `listProjects`, which only prints the store's listing. `Execute` treats help, version and list as succeeding without touching the disk. Reading `package.json` for the version can fail and then exits with status 1; the model does not capture that.
- `JSON.parse` is the parameter `parse`. Non-string JSON values are not modelled:
  - a number as a name, say;
  - an entry without a `name`, which JavaScript would render as `undefined`.
- The scaffold texts of `init` (cli.js:40-74) are the parameters `manifestText` and `readmeText`.
- File contents are text. Bytes are never inspected, because the copy is verbatim.
- The disk left by a copy that fails midway is not modelled. The model only says that nothing outside the destination changed.
- `path.join` and `path.basename` work on sequences of names. `..`, `.`, separators inside a name and trailing slashes are not modelled.
- Commands.FileSystem.CopyDirectory: requires the source and destination paths to be disjoint, meaning neither contains the other. Copying a directory into itself is not modelled.
- Commands.FileSystem.SaveProject: requires the project directory and its archive to be disjoint, so three kinds of `cwd` are not modelled.
  - The home directory and any of its ancestors. There `readdir` at cli.js:113 lists the way into `.offlinepm`, which is not an excluded name. So `copyDirectory` descends into the archive it is writing and nests the archive in itself again and again, until the filesystem raises an error.
  - An archive itself, such as `~/.offlinepm/foo`. There the archive path is `cwd`, so the `rm` at cli.js:104 deletes the project directory. The copy then recreates it empty, and the save reports success with the archive silently emptied.
  - A directory inside an archive whose name equals the archive's.
- Commands.FileSystem.CheckoutProject: requires the archive `~/.offlinepm/<name>` and the target `cwd/<name>` to be disjoint, so three kinds of run are not modelled.
  - A checkout run in the store itself, where the archive is its own target.
  - A checkout run inside the archive.
  - A checkout whose target lies above the store, such as `-c u` run in `/home` when the home directory is `/home/u`.
- Commands.FileSystem.Execute: carries the same two requirements, for `-s` and for `-c` with a name.
- Commands.SaveThenCheckout: requires a non-empty project directory name, because checkout rejects an empty name.
