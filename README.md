# Sophosia core, modelled in Dafny

Sophosia is a desktop reference manager built with Tauri and Vue. A
*project* is one reference: its meta data, an optional PDF and a folder
of notes, markdown and Excalidraw drawings. Projects sit in
`/`-separated *categories* and are indexed in an SQLite database. The
user opens them as pages in a golden-layout window. The PDF reader
searches, builds a table of contents and moves annotations between the
legacy store and the PDF. Plugins add buttons and views.

This model covers the application's TypeScript core:

- **Ids, paths and links** (`ProjectUtils`, `Meta`): the string functions
  behind item ids, project folders, `sophosia://open-item/` deep links,
  author names and `generateCiteKey`.
- **Notes, projects and the scanner** (`Notes`, `ProjectFileOps`,
  `ProjectIndex`, `SqliteOps`, `Scan`, `Graph`):
  - the free-name loops;
  - the id → note classification;
  - the JSON meta block framed in a project's markdown note;
  - the category filters;
  - the table updates and row decoding of the SQLite layer;
  - the scanner's dispatch on file kinds;
  - the reference graph and its de-duplication.
- **Categories** (`Category`, `CategoryEdits`, `Migration`): building the
  prefix tree from category paths, and rename, delete and move on
  category lists. `Migration` covers the folder-id → path map of the
  v0.16.3 → v0.17.0 migration.
- **JSON store** (`JsonDb`): the id-prefix → folder routing and the upkeep
  of the workspace list.
- **Stores** (`WindowStore`, `LayoutStore`, `ProjectStore`, `AppState`,
  `ChatStore`, `AccountStore`, `DialogController`, `AnnotationStore`,
  `PluginManager`): each Pinia store is a class whose methods update its
  fields. Each method's contract ties the new state to a pure function of
  the old one, and lemmas state what those functions keep.
- **PDF logic** (`PdfReader`, `EmbedMigration`):
  - search-match navigation with its modular page wrap;
  - the global match counter;
  - the TOC conversion and the reader's state loading;
  - the legacy ↔ embed annotation mapping, with its de-duplication and
    bounding-box union.

The outside world enters as state or as parameters:

- The file system is a map from path to content.
- Each SQLite table is a field of `SqlTables.Database`.
- The separator is `/`.
- `nanoid`, the clock, and answers from Supabase or the dialog are
  parameters.
- `extname` is the part after the last `.` of the last segment. It is
  `None` when that segment has no `.`; Tauri rejects such a path.

Where the code does something its authors evidently did not intend,
the model keeps both definitions, and each such spot is listed under
"## Findings". The as-written definition comes with a lemma that shows
the discrepancy on a concrete input. The corrected definition has the
intended property proved about it. The stores, the plugin manager and
the annotation migration are built on the as-written definitions: for
example `deleteProject` leaves only the deleted project selected, and
disabling a plugin drops the items of every plugin whose id extends its
id. The SQLite read path is the one place built on the corrected
definitions; the lines under "## Left out" that start with
`ProjectFromTables`, `GetProjects` and their lemmas say so, and
as-written lemmas stand beside them.

## Model

| member | source | states |
|---|---|---|
| ProjectUtils.SortTree | src/backend/project/utils.ts:11-24 | a node without a children list, or with at most one child, is returned unchanged (its single child is not recursed into); the id, label and number of children never change |
| ProjectUtils.SortByLabel | src/backend/project/utils.ts:15-21 | the stable sort of the children by label is a permutation of them |
| ProjectUtils.SortByLabelSorted | src/backend/project/utils.ts:15-21 | when every child has a label, the sorted list is in ascending label order |
| ProjectUtils.SortTreeSortsChildren | src/backend/project/utils.ts:14-22 | with two or more children, the new children are a permutation of the old ones, each sorted recursively, and are in label order when all are labelled |
| ProjectUtils.SortTreeUnlabelled | src/backend/project/utils.ts:15-21 | a tree without labels (the category tree) is left unchanged, since every comparison with `undefined` is false |
| ProjectUtils.AuthorToString | src/backend/project/utils.ts:30-40 | "" for a missing or empty list; otherwise the names of the non-null authors (literal, else "given family") joined by ", " |
| ProjectUtils.AuthorToStringExample | src/backend/utils.vitest.test.ts:93-102 | [{Feng, Hunt}, {literal "Another name"}] renders as "Hunt Feng, Another name" |
| ProjectUtils.GetTitle | src/backend/project/utils.ts:49-57 | the original title exactly when translated titles are off and it is a non-empty text, otherwise the title |
| ProjectUtils.IdToPathIsPrefixed | src/backend/project/utils.ts:77-80 | with "/" as separator an id's path is the storage path, "/", then the id |
| ProjectUtils.IdToPathExample | src/backend/utils.vitest.test.ts:112-118 | "test/id" maps to storagePath + "/test/id" |
| ProjectUtils.PathToIdOfIdToPath | src/backend/project/utils.ts:65-80 | pathToId(idToPath(id)) == id for every id |
| ProjectUtils.LinkToIdOfIdToLink | src/backend/project/utils.ts:107-118 | linkToId(idToLink(id)) == id for ids containing neither "%20" nor the deep-link prefix |
| ProjectUtils.LinkToIdExample | src/backend/utils.vitest.test.ts:124-125 | "sophosia://open-item/test%20link" decodes to "test link" |
| ProjectUtils.IdToLinkExample | src/backend/utils.vitest.test.ts:138-139 | "projectId/test link" encodes to "projectId/test%20link" |
| ProjectUtils.OldToNewIdSegments | src/backend/project/utils.ts:82-100 | every segment but the last is kept; the last becomes newLabel, plus "." and the old extension exactly when newLabel has no extension and the old id has one |
| Meta.ParseRule | src/backend/project/meta.ts:156-164 | the connector is " " exactly when the space split has three non-empty leading parts, "_" exactly when only the underscore split has them, and otherwise "" with the underscore split as keys; the keys always join back to the rule |
| Meta.KeyFamilies | src/backend/project/meta.ts:169-191 | at most two family names are collected, in author order; as soon as an author comes after the second one, "etal" is added and the loop stops |
| Meta.KeyFamiliesUnique | src/backend/project/meta.ts:171-177 | the list of family names the loop may return is unique |
| Meta.KeyFamiliesFewAuthors | src/backend/project/meta.ts:171-191 | with fewer than two named authors before the last, every family name is used and no "etal" appears |
| Meta.AuthorFamily | src/backend/project/meta.ts:178-190 | an author contributes exactly when it has a non-empty family or literal; a family name is lowercased; a literal gives its second word, else the text before its first comma, else itself, lowercased |
| Meta.AuthorPart | src/backend/project/meta.ts:168-196 | "unknown" without authors; otherwise the joined family names with no space left |
| Meta.YearPart | src/backend/project/meta.ts:199-201 | "unknown" without `issued`; the first date part otherwise; a missing date part throws |
| Meta.RemoveFirstSpecial | src/backend/project/meta.ts:208-214 | the non-global regex removes only the first special character; a text without one is unchanged |
| Meta.NonStopWords | src/backend/project/meta.ts:213 | the kept words are words of the title and none of them is a, an, the or on in any case |
| Meta.TitlePart | src/backend/project/meta.ts:203-216 | long titles: the lowercased words joined by the connector, first special character removed; otherwise the first non-stop word, first special character removed, lowercased; a title of stop words only throws |
| Meta.PascalWords | src/backend/project/meta.ts:225-229 | the first character of every run of word characters is uppercased and nothing else changes |
| Meta.AssembleKey | src/backend/project/meta.ts:218-231 | the parts in rule order joined by the connector; with the " " connector the joined parts with the first character of every word uppercased and every space removed, so the key holds no space |
| Meta.AssemblePascalExample | src/backend/project/meta.ts:222-230 | with the " " connector the parts "feng", "2023" and "test" give "Feng2023Test" |
| Meta.RemoveSpacesBetween | src/backend/project/meta.ts:229 | three words joined by spaces lose exactly those spaces |
| Strings.Substitution | src/backend/category/fileOps.ts:23-25 | the replacement text `replace` inserts; a replacement without "$" is inserted as it is |
| Strings.Replace | src/backend/category/fileOps.ts:23-25 | `replace` with a string pattern: a text without the pattern is unchanged, a text starting with it gets the expanded replacement before the rest, and a replacement without "$" gives the literal first-occurrence replacement |
| Strings.RemoveChar | src/backend/project/meta.ts:229 | `replaceAll(c, "")`: no `c` is left, every other character occurs as often as before, and a text without `c` is unchanged |
| Strings.RemoveCharAppend | src/backend/project/meta.ts:229 | removing a character from a concatenation removes it from each part |
| Meta.CiteKey | src/backend/project/meta.ts:150-233 | generating a key fails exactly when the year or the title part throws |
| Meta.GenerateCiteKey | src/backend/project/meta.ts:150-233 | the loops of `generateCiteKey` compute exactly the key `CiteKey` specifies |
| Meta.DefaultRuleParses | src/backend/project/meta.ts:152-164 | the default rule "author_year_title" parses to the keys author, year, title with the "_" connector |
| Meta.CiteKeyExample | src/backend/project/meta.vitest.test.ts:60-72 | the default rule gives "feng_2023_test" for Feng, 2023, "test title" |
| Meta.ExportExtension | src/backend/project/meta.ts:95-105 | bibtex and biblatex give bib, bibliography txt, ris ris, json json, anything else "" |
| Meta.ExportPath | src/backend/project/meta.ts:98-116 | ".ext" is appended exactly when the last five (json) or four characters of the path do not contain it |
| Meta.ExportPathIdempotent | src/backend/project/meta.ts:98-116 | choosing the path twice appends the extension at most once |
| Notes.FindFreeName | src/backend/note/index.ts:41-48 | the naming loop returns a path that does not exist, and it is the first free one among base, "base 1", "base 2", … |
| Notes.CandidatePathInjective | src/backend/note/index.ts:45-46 | distinct attempts give distinct paths, so the loop cannot revisit a name |
| Notes.CreateNote | src/backend/note/index.ts:34-61 | the note's path is free and is the first free candidate; its label is that name plus ".md" or ".excalidraw" by type, its id the folder id and the label, its projectId the folder id's first segment, its type the argument |
| Notes.CreateFolder | src/backend/note/index.ts:432-453 | the folder's path is free and is the first free candidate under the parent; its id is parent + "/" + name and it has no children |
| Notes.GetNote | src/backend/note/index.ts:218-238 | nothing unless the extension is md or excalidraw; otherwise projectId is the first segment, label the last, path idToPath(id), and the type Markdown exactly for md |
| Notes.GetNoteOfCreated | src/backend/note/index.ts:51-234 | a note made by createNote is read back unchanged by getNote from its id |
| Notes.RenamedNote | src/backend/note/index.ts:168-202 | the old path's extension is appended unless the new id already ends with it; projectId is the new id's first segment and label its basename; an old id without extension fails |
| Notes.RenameKeepsExtendedId | src/backend/note/index.ts:170 | renaming to an id that already carries the extension keeps that id |
| Notes.FileNote | src/backend/note/index.ts:269-286 | a listed file gives a note only when it is md or excalidraw and is not projectId/projectId.md |
| Notes.ListedNotesAreNotes | src/backend/note/index.ts:266-291 | every note the directory scan collects is a note file, with the id pathToId gives its path |
| Notes.CollectNotes | src/backend/note/index.ts:266-291 | the scan loop keeps the note files in listing order and recurses into directories with children |
| Notes.SortNotes | src/backend/note/index.ts:295 | the notes are permuted into label order |
| Notes.LikeRowsAsWritten | src/backend/note/index.ts:254-258 | as written the quoted pattern selects exactly the ids that start with "$1", whatever the folder |
| Notes.FolderRows | src/backend/note/index.ts:254-258 | the intended selection: exactly the note ids that start with the folder id, no more rows than the table |
| Notes.LikeRowsAsWrittenIgnoresFolder | src/backend/note/index.ts:254-261 | with no note id starting with "$" nothing is selected for any folder, so the listing branch is always taken |
| Notes.LikeRowsAsWrittenMissesFolder | src/backend/note/index.ts:254-258 | the note "p/a.md" of folder "p" is missed as written and selected as intended |
| Notes.GetNotes | src/backend/note/index.ts:251-300 | when the table holds notes under the folder, getNote of each of their ids in table order; otherwise the notes of the folder's listing, sorted by label |
| Notes.EntryNode | src/backend/note/index.ts:313-329 | a file is dropped exactly when it is not md/excalidraw or is the project note; a directory with children becomes a folder node with its own tree; the node's id is pathToId of the entry |
| Notes.NoteTree | src/backend/note/index.ts:311-339 | the tree of a listing has at most one node per entry of it |
| Notes.NoteTreeKeepsDirs | src/backend/note/index.ts:312-331 | no directory is dropped from the tree: only files are filtered |
| Notes.NoteTreeValid | src/backend/note/index.ts:318-323 | at every depth, a note node is typed and is not the project note |
| Notes.BuildNoteTree | src/backend/note/index.ts:311-339 | the recursive `_dfs` loop builds exactly the tree `NoteTree` specifies |
| Notes.PlaceholdersOnePerId | src/backend/note/index.ts:486-488 | the placeholder list "$1, $2, …, $n" holds one parameter marker per note id |
| Notes.LinksInListAsWrittenExtra | src/backend/note/index.ts:490-493 | as written, the links statement's list carries one "$" more than there are note ids |
| Notes.LinksInListOneNote | src/backend/note/index.ts:488-491 | for one note the notes statement reads "$1" but the links statement reads "$$1" |
| Notes.LinksInListParameters | src/backend/note/index.ts:488-489 | the corrected links list, the same list the notes statement uses, has one parameter per note id |
| ProjectFileOps.SaveProjectNote | src/backend/project/fileOps.ts:167-186 | the note text is the notice, "# label", the author and abstract lines (rendered "false: …" for a non-project), a blank line, "## meta", then the JSON text between a "```json" line and a "```" line |
| ProjectFileOps.LoadProjectNote | src/backend/project/fileOps.ts:194-206 | succeeds exactly when a "```json" line exists and comes before the first "```" line; the result is the lines strictly between the two, joined by "\n" |
| ProjectFileOps.ProjectNoteLines | src/backend/project/fileOps.ts:169-181 | the lines of a saved note are the header lines, "```json", the JSON lines, "```" and a final empty line |
| ProjectFileOps.SaveLoadProjectNote | src/backend/project/fileOps.ts:167-206 | the JSON block saveProjectNote writes is read back by loadProjectNote when no header line is a fence and the JSON has no "```" line |
| ProjectFileOps.LoadWithEarlierFence | src/backend/project/fileOps.ts:199-203 | a "```" line before the first "```json" line makes loading fail |
| ProjectFileOps.AddedAfter | src/backend/project/fileOps.ts:43-45 | keeps exactly the projects added after the cutoff |
| ProjectFileOps.SortNewestFirst | src/backend/project/fileOps.ts:47 | a permutation in descending timestampAdded order |
| ProjectFileOps.Favorites | src/backend/project/fileOps.ts:50 | keeps exactly the favourite projects |
| ProjectFileOps.InCategory | src/backend/project/fileOps.ts:53-55 | keeps exactly the projects whose categories include the category |
| ProjectFileOps.FilterProjects | src/backend/project/fileOps.ts:36-57 | library keeps all; added keeps those added within 30 days, newest first; favorites keeps favourites; any other category keeps its members |
| ProjectFileOps.Attach | src/backend/project/fileOps.ts:59-63 | the PDF path and the note tree are attached only when asked for; the project is otherwise unchanged |
| ProjectFileOps.GetProjects | src/backend/project/fileOps.ts:30-70 | the loop attaches PDF and notes to each filtered project, in filter order |
| ProjectFileOps.ListedProjectsFromVisible | src/backend/project/fileOps.ts:79-83 | every listed project was loaded from a folder whose name does not start with "." |
| ProjectFileOps.VisibleFolderListed | src/backend/project/fileOps.ts:79-87 | every visible folder whose note loads contributes its project |
| ProjectFileOps.GetAllProjects | src/backend/project/fileOps.ts:72-94 | the push loop returns the loadable visible folders' projects in listing order, with attachments |
| ProjectFileOps.GetPDF | src/backend/project/fileOps.ts:102-114 | the path of the first entry whose extension is "pdf", or nothing exactly when there is none |
| ProjectFileOps.RenamePDF | src/backend/project/fileOps.ts:124-134 | a no-op without project or PDF; otherwise the PDF moves to storage/id/citeKey.pdf and the new path is returned; the call fails exactly when the cite key cannot be built |
| ProjectFileOps.RenamedPdfInProjectFolder | src/backend/project/fileOps.ts:130-133 | the renamed PDF lies in the project folder, exists afterwards and has extension "pdf" |
| ProjectIndex.CreateProject | src/backend/project/index.ts:30-48 | the id is "SP" + a fresh id; categories are ["library"] plus the given category when it is not "library"; tags, authors and children are empty, favorite is false, there is no path, and both timestamps are now |
| ProjectIndex.CreateProjectInCategory | src/backend/project/project.vitest.test.ts:18-22 | a new project is in the library first and in its category, and in no other |
| ProjectIndex.Without | src/backend/project/index.ts:94 | the filter removes every copy of the category and keeps every other category |
| ProjectIndex.DeleteProject | src/backend/project/index.ts:82-100 | with deleteFromDB the project is removed from both stores; otherwise a missing category is an error, and otherwise only that category is removed |
| ProjectIndex.DeleteProjectKeepsOthers | src/backend/project/project.vitest.test.ts:46-57 | after removal from a category the project is no longer in it and keeps all its other categories |
| ProjectIndex.ApplyPatch | src/backend/project/index.ts:116 | `Object.assign` over every property of a project: present properties overwrite, absent ones keep the stored value |
| ProjectIndex.FullPatchReplaces | src/backend/project/index.ts:116 | assigning every property of a project yields that project, whatever was stored |
| ProjectIndex.ApplyPatchIdempotent | src/backend/project/index.ts:116 | assigning the same properties twice is assigning them once |
| ProjectIndex.EmptyPatch | src/backend/project/index.ts:116 | assigning no properties leaves the project unchanged |
| ProjectIndex.SettledId | src/backend/project/index.ts:123-130 | a fresh suffix is appended to the new id exactly when its folder already exists |
| ProjectIndex.MovedStates | src/backend/project/index.ts:132-138 | every pdf state of the old project gets the new id; all others are unchanged |
| ProjectIndex.MovedAnnotations | src/backend/project/index.ts:140-146 | every annotation of the old project gets the new id; all others are unchanged |
| ProjectIndex.MovedStatesLeaveNoOldId | src/backend/project/index.ts:133-137 | after the move no pdf state refers to the old id, and exactly the old and the new project's states refer to the new one |
| ProjectIndex.MovedAnnotationsLeaveNoOldId | src/backend/project/index.ts:141-145 | after the move no annotation refers to the old id |
| ProjectIndex.UpdateProject | src/backend/project/index.ts:110-166 | an unknown project gives undefined and changes nothing; otherwise the props are applied over the stored project and timestampModified is now; on an id change the id is settled, the states and annotations are moved to it, and the meta note inside the old folder and then the folder are renamed to the new id; without an id change nothing is moved or renamed |
| ProjectIndex.GetProject | src/backend/project/index.ts:177-190 | the SQL store's project, else the file store's, else nothing; PDF path and note tree are attached only when asked for, and every other property is the found project's |
| SqliteOps.InsertValues | src/backend/project/sqliteOps.ts:105-115 | after the delete and the insert-if-absent loop the table holds the other projects' rows followed by each of the project's values once, in first-seen order |
| SqliteOps.InsertedValuesUnique | src/backend/project/sqliteOps.ts:105-135 | after the insert the project's rows are exactly its values without repeats, and every other project's rows are as before |
| SqliteOps.InsertTags | src/backend/project/sqliteOps.ts:105-115 | the tags table becomes the other projects' tags plus the project's distinct tags |
| SqliteOps.InsertCategories | src/backend/project/sqliteOps.ts:123-135 | the categories table becomes the other projects' categories plus the project's distinct categories |
| SqliteOps.InsertContent | src/backend/project/sqliteOps.ts:144-153 | the row of that (project, page) is deleted and the new text appended |
| SqliteOps.ContentReplacedOnce | src/backend/project/sqliteOps.ts:144-153 | every row of that page holds the new text, the new row is present, and every row of any other page is kept |
| SqliteOps.InsertAuthors | src/backend/project/sqliteOps.ts:84-97 | one row per author is appended in order, empty strings for missing names, the literal name also written as affiliation |
| SqliteOps.InsertMeta | src/backend/project/sqliteOps.ts:50-76 | the project's old metas row is deleted and its new row appended |
| SqliteOps.MetasOfInserted | src/backend/project/sqliteOps.ts:50-52 | after the insert the project has exactly one metas row, the inserted one |
| SqliteOps.AddProject | src/backend/project/sqliteOps.ts:37-43 | the metas, tags, categories and authors tables are each updated as their insert statement states |
| SqliteOps.ParseFavorite | src/backend/project/sqliteOps.ts:184-186 | "true" parses to true, "" and "false" to false, any other text fails |
| SqliteOps.ProjectFromTables | src/backend/project/sqliteOps.ts:155-194 | a project is found only when a metas row has the id; it then has that id and exactly the categories and tags its rows name |
| SqliteOps.TagsAsWritten | src/backend/project/sqliteOps.ts:172-189 | as written, tags selected by their `tag` column but read by `category` are all undefined, one per row of the project |
| SqliteOps.TagsAsWrittenExample | src/backend/project/sqliteOps.ts:172-189 | a project with the tag "x" reads [undefined] as written and ["x"] when the selected column is read |
| SqliteOps.TagsReadValues | src/backend/project/sqliteOps.ts:172-176 | reading the selected column returns the project's tag values in table order |
| SqliteOps.AddThenGetProject | src/backend/project/sqliteOps.ts:37-194 | after addProject the lookup finds the project with its id, title, favourite flag, timestamps and exactly its categories and tags |
| SqliteOps.InsertedValuesRead | src/backend/project/sqliteOps.ts:105-135 | the values read back after an insert are exactly the inserted values |
| SqliteOps.DeleteProject | src/backend/project/sqliteOps.ts:341-360 | every row of the project in every table and every link from or to it is removed; all other rows stay |
| SqliteOps.Relinked | src/backend/project/sqliteOps.ts:326-333 | the links keep their number, and after a real id change no link end is the old id |
| SqliteOps.FollowIdChange | src/backend/project/sqliteOps.ts:317-337 | annotations, notes and contents of the old id move to the new id and link ends are redirected |
| SqliteOps.Updated | src/backend/project/sqliteOps.ts:302-304 | a patched project exists exactly when the stored project is found |
| SqliteOps.UpdateProject | src/backend/project/sqliteOps.ts:301-339 | an unknown id changes nothing; otherwise the rows are replaced by the patched project, and only on an id change do annotations, notes, links and contents follow it |
| SqliteOps.ReplaceRows | src/backend/project/sqliteOps.ts:307-315 | the rows of the old id are deleted and the patched project is inserted |
| SqliteOps.IdChangeLeavesNoOldId | src/backend/project/sqliteOps.ts:317-337 | after an id change no note, annotation, content row or link refers to the old id, and nothing is lost |
| SqliteOps.SelectedMetas | src/backend/project/sqliteOps.ts:201-253 | a metas row is selected exactly when its query's WHERE clause holds: favourite, added in the last 30 days, or filed under the category |
| SqliteOps.GroupConcat | src/backend/project/sqliteOps.ts:206-208 | the concatenation is NULL exactly when there are no rows |
| SqliteOps.QueryRow | src/backend/project/sqliteOps.ts:203-253 | the row keeps the project's id, title and favourite text, and its authors column is NULL exactly when the project has no authors |
| SqliteOps.QueryRows | src/backend/project/sqliteOps.ts:256 | one row per selected project, in table order |
| SqliteOps.DecodeList | src/backend/project/sqliteOps.ts:282-283 | NULL or "" decodes to []; any other column decodes to parts that join back to it with "\|" |
| SqliteOps.DecodeGroupConcat | src/backend/project/sqliteOps.ts:242-283 | decoding inverts the "\|" concatenation when no value is empty or holds a "\|" |
| SqliteOps.AuthorOfName | src/backend/project/sqliteOps.ts:285-286 | the family name is the text before the first comma, and there is no literal name |
| SqliteOps.AuthorOfNameRoundTrip | src/backend/project/sqliteOps.ts:244-286 | "family,given" reads back as that author when neither name holds a comma |
| SqliteOps.DecodeRowAsWritten | src/backend/project/sqliteOps.ts:284 | as written, decoding fails exactly when the authors column is NULL |
| SqliteOps.DecodeRow | src/backend/project/sqliteOps.ts:257-290 | the project has the row's id and title as label, favourite exactly when the text is "true", the decoded tags and categories, the original title unless empty or "[]", and one author per "\|"-separated name |
| SqliteOps.DecodeRowsAsWritten | src/backend/project/sqliteOps.ts:256-294 | as written, any row without authors empties the whole result; otherwise there is one project per row |
| SqliteOps.DecodeRows | src/backend/project/sqliteOps.ts:257 | one decoded project per row, in order |
| SqliteOps.GetProjects | src/backend/project/sqliteOps.ts:196-295 | one project per selected metas row, with that row's id, in order |
| SqliteOps.GetProjectsSelects | src/backend/project/sqliteOps.ts:201-253 | a project is listed exactly when its metas row meets the query's WHERE clause |
| SqliteOps.GetAllProjects | src/backend/project/sqliteOps.ts:297-299 | the projects listed are exactly those filed under "library" |
| SqliteOps.GetProjectsReadsBack | src/backend/project/sqliteOps.ts:238-290 | each listed project reads back its own tags and authors when no tag is empty and no name holds a "\|" or "," |
| SqliteOps.RowReadsBack | src/backend/project/sqliteOps.ts:242-287 | one project's row decodes back to its tags and its authors' family and given names |
| SqliteOps.AuthorsReadBack | src/backend/project/sqliteOps.ts:244-287 | the "\|"-joined "family,given" names split back into one author per row, in order |
| SqliteOps.FavoriteRow | src/backend/project/sqliteOps.ts:202-215 | a favourite with two tags gives one row whose tags are joined by the query's separator |
| SqliteOps.FavoriteTagsMergedAsWritten | src/backend/project/sqliteOps.ts:206-282 | as written, a favourite with the tags a and b reads back the one tag "a,b"; with "\|" concatenation it reads back a and b |
| SqliteOps.FavoriteTagsAsWritten | src/backend/project/sqliteOps.ts:206-282 | as written, the favourites query's tags a and b decode to the single tag "a,b" |
| SqliteOps.FavoriteTagsCorrected | src/backend/project/sqliteOps.ts:242-282 | concatenated with "\|", the tags a and b decode to a and b |
| SqliteOps.CommaJoinedTags | src/backend/project/sqliteOps.ts:206-282 | tags joined by "," come back as one tag |
| SqliteOps.BarJoinedTags | src/backend/project/sqliteOps.ts:242-282 | tags joined by "\|" come back as they were |
| SqliteOps.ProjectWithoutAuthorsHidesAll | src/backend/project/sqliteOps.ts:284-294 | as written, one project without authors empties the whole list; the corrected decoding keeps both rows and gives the second no authors |
| SqliteOps.DecodeRowAgrees | src/backend/project/sqliteOps.ts:257-290 | where the written decoding succeeds it equals the corrected one |
| SqliteOps.GetProjectsAsWritten | src/backend/project/sqliteOps.ts:196-295 | as written, the list is either empty or has one project per selected metas row, with that row's id, in order |
| SqliteOps.GetProjectsAsWrittenEmpty | src/backend/project/sqliteOps.ts:284-294 | as written, one selected project without an author empties the whole list |
| SqliteOps.GetProjectsAsWrittenLists | src/backend/project/sqliteOps.ts:256-294 | as written, when every selected project has an author, each row is decoded as the corrected decoder does, one project per row |
| SqliteOps.GetProjectsAsWrittenAgrees | src/backend/project/sqliteOps.ts:238-294 | for a category query, the written getProjects equals the corrected one when every selected project has an author |
| SqliteOps.GetAllProjectsAsWritten | src/backend/project/sqliteOps.ts:297-299 | as written, getAllProjects is the corrected library list when every library project has an author, and empty otherwise |
| SqliteOps.AddThenGetTagsAsWritten | src/backend/project/sqliteOps.ts:105-189 | as written, after addProject the lookup reads one undefined tag per distinct tag of the project |
| Scan.ProcessEntries | src/backend/scan/index.ts:100-112 | the files handed on are exactly the walk: files modified after the last scan, other entries descended into through their children, depth first and in order |
| Scan.WalkedAreFresh | src/backend/scan/index.ts:104-107 | every file handed on is a file modified after the last scan |
| Scan.WalkedHasFreshFiles | src/backend/scan/index.ts:104-107 | every top-level file modified after the last scan is handed on |
| Scan.WalkedAppend | src/backend/scan/index.ts:104-111 | walking a listing is walking its two halves one after the other |
| Scan.Dispatch | src/backend/scan/index.ts:34-61 | an md file is the folder note exactly when its id is "base/base.md" and otherwise a normal note; a json file is an annotation exactly when its name starts with "SA"; a skipped file is not md |
| Scan.SameFirstSegment | src/backend/scan/index.ts:38-39 | two ids "a/x" and "b/y" with slash-free first segments agree on those segments |
| Scan.DispatchMarkdown | src/backend/scan/index.ts:36-48 | the md note named after its project folder is read for meta; any other md note of the folder for content and links |
| Scan.NoteRowOf | src/backend/scan/index.ts:133-147 | the note row has the file's id and, as project, the id's first segment |
| Scan.DrawnTexts | src/backend/scan/index.ts:176-180 | at most one text per element, and every text comes from a non-deleted text element |
| Scan.ExcalidrawText | src/backend/scan/index.ts:172-183 | the loop yields the drawn texts joined by line breaks |
| Scan.ExcalidrawLines | src/backend/scan/index.ts:176-183 | when no text holds a line break, splitting the content at line breaks gives back the drawn texts |
| Scan.LastIndexOfItem | src/backend/scan/index.ts:160 | -1 exactly when the character is absent; otherwise the position of its last occurrence |
| Scan.Parenthesised | src/backend/scan/index.ts:160-161 | a parenthesised part is found only when the match has a "(" |
| Scan.IdToLinkLacks | src/backend/project/utils.ts:116-118 | encoding an id adds no character outside "%20" that the id lacks |
| Scan.ParenthesisedLink | src/backend/scan/index.ts:160-161 | in "[text](inner)" the parenthesised part is inner when text has no "(" and inner no ")" |
| Scan.LinkTargetOfLink | src/backend/scan/index.ts:159-163 | a link written by idToLink, with or without a "#" block anchor, leads back to the id |
| Scan.BeforeAnchor | src/backend/scan/index.ts:161-162 | the part before the first "#" of an encoded id with an anchor decodes to the id |
| Scan.DanglingIds | src/backend/scan/index.ts:75-78 | an id is collected exactly when it is a non-empty meta id whose folder does not exist |
| Scan.CollectDanglingIds | src/backend/scan/index.ts:68-78 | the loop collects exactly the dangling ids |
| Scan.RemoveDanglingData | src/backend/scan/index.ts:68-94 | the rows of dangling projects go from metas, authors, contents, notes, annotations and tags, links from or to them go, and the categories table is untouched |
| Scan.LinkInserted | src/backend/scan/index.ts:210-215 | the link is present afterwards, nothing else is added, and a table without duplicates keeps none |
| Scan.LinkInsertedLength | src/backend/scan/index.ts:210-215 | a link is added exactly when it was absent |
| Scan.InsertLink | src/backend/scan/index.ts:210-215 | the links table becomes the insert of the absent pair |
| Scan.NoteUpsertedUnique | src/backend/scan/index.ts:254-275 | after insertNote the note's only row is the new one, other notes' rows stay, and one row per note id is kept |
| Scan.AnnotUpsertedUnique | src/backend/scan/index.ts:222-240 | after insertAnnot the annotation's only row is the new one, others stay, and one row per annotation id is kept |
| Scan.InsertNote | src/backend/scan/index.ts:254-275 | the notes table becomes the other notes' rows plus the new row |
| Scan.InsertAnnot | src/backend/scan/index.ts:222-240 | the annotations table becomes the other annotations' rows plus the new row |
| Scan.LinksAdded | src/backend/scan/index.ts:159-164 | every target is linked from the source, old links stay, nothing else is added, and no duplicate appears |
| Scan.LinksAddedStep | src/backend/scan/index.ts:159-164 | one more target adds one insertLink of that pair |
| Scan.ExtractMarkdownLinks | src/backend/scan/index.ts:154-165 | the links table gains one link per match target, in order |
| Scan.ExtractMarkdown | src/backend/scan/index.ts:133-165 | the note's row is replaced by its current text, and its links are added |
| Scan.ExtractExcalidraw | src/backend/scan/index.ts:172-193 | the drawing's row is replaced by the drawn texts joined by line breaks |
| Scan.PdfPageTexts | src/backend/project/index.ts:235-239 | one entry per page, numbered from 1, holding the page's items joined |
| Scan.ContentsAfterSnoc | src/backend/project/index.ts:235-240 | one more page is one more insertContent |
| Scan.ContentsAfterStored | src/backend/project/index.ts:235-240 | a page that no later page replaces keeps a row with its text |
| Scan.ContentsAfterOnce | src/backend/project/index.ts:235-240 | every row of such a page holds its text |
| Scan.PdfPagesDistinct | src/backend/project/index.ts:235-239 | page numbers are distinct, so no page replaces another |
| Scan.PdfPagesStored | src/backend/project/index.ts:230-241 | each page k has a row under the number k holding its text |
| Scan.PdfPagesOnce | src/backend/project/index.ts:230-241 | no row of page k holds any other text |
| Scan.ExtractPdf | src/backend/project/index.ts:230-241 | the contents table after one insertContent per page, under the project of the file's id |
| Scan.ExtractMeta | src/backend/scan/index.ts:119-126 | an unknown project changes nothing; otherwise its metas, authors, tags and categories rows are written again |
| Scan.ProcessFile | src/backend/scan/index.ts:33-62 | the tables after one file are exactly what the extractor picked for its extension writes: the project note's metas, authors, tags and categories; a note's row and links; a drawing's row; a PDF's page contents; an annotation's row; any other file changes nothing |
| Scan.FileProcessedKeepsUpserted | src/backend/scan/index.ts:33-62 | processing any file keeps no duplicate link and one row per note and per annotation |
| Scan.FilesProcessedKeepsUpserted | src/backend/scan/index.ts:33-62 | processing any run of files keeps that invariant |
| Scan.SkippedFileUnchanged | src/backend/scan/index.ts:58-59 | a file whose extension is not md, excalidraw, pdf or json changes no table |
| Scan.LastNoteStored | src/backend/scan/index.ts:44-47 | a normal note processed last has exactly one row, read from its current text |
| Scan.DanglingRemovalKeepsUpserted | src/backend/scan/index.ts:84-93 | deleting rows keeps no duplicate link and one row per note and per annotation |
| Scan.IndexFiles | src/backend/scan/index.ts:26-66 | the tables after a scan are those left once the dangling projects' rows are gone, with every file of the walk processed in walk order; a database that kept the invariant keeps it |
| Graph.OutgoingTo | src/backend/graph/index.ts:39-43 | one link from the note per target, in target order |
| Graph.From | src/backend/graph/index.ts:52-58 | the links selected are exactly those whose source is the note |
| Graph.UpdateForwardLinks | src/backend/graph/index.ts:37-44 | the note's links are deleted and one link per target is appended |
| Graph.ForwardLinksReplaced | src/backend/graph/index.ts:37-44 | afterwards the note's outgoing links are exactly its targets, in order |
| Graph.OtherLinksKept | src/backend/graph/index.ts:37-44 | every other note's outgoing links are as before |
| Graph.NoteUnderProject | src/backend/graph/index.ts:135-139 | a note "projectId/path" is a note node whose parent is the project; at the top of the project its label is its file name with the first "%20" read as a space |
| Graph.NoteNodes | src/backend/graph/index.ts:151-162 | one node per note of the project, in order, with the note's id, label and project as parent |
| Graph.ClusterShape | src/backend/graph/index.ts:128-174 | no id gives no nodes; otherwise a project's notes come first, then the item's own node, then its parent's cluster |
| Graph.FirstPerIdCovers | src/backend/graph/index.ts:72-79 | the nodes kept have distinct ids, come from the input, and cover every id of the input |
| Graph.Touching | src/backend/graph/index.ts:82-86 | the links selected are exactly those from or to the item |
| Graph.EdgeClustersStep | src/backend/graph/index.ts:88-99 | one more edge adds the clusters of its source and then of its target |
| Graph.AddUnique | src/backend/graph/index.ts:75-79 | the nodes kept are the first node of each id of the old nodes followed by the cluster, and the id list matches them |
| Graph.AddAfter | src/backend/graph/index.ts:94-98 | the loop keeps the first node per id of everything seen so far |
| Graph.GetGraph | src/backend/graph/index.ts:65-104 | it throws exactly when the item's cluster or the cluster of an end of one of its links meets a missing annotation or project; otherwise the nodes are the first node of each id across the item's cluster and the clusters of the ends of its links, and the edges are the links from or to the item |
| Graph.AddAllEdges | src/backend/graph/index.ts:88-100 | the loop over the links stops with a throw exactly when some link's ends fail to resolve; otherwise it adds the ends' clusters in order and keeps every link as an edge |
| Graph.AllEndsResolveEach | src/backend/graph/index.ts:88-100 | the links resolve one after another exactly when each of them resolves |
| Graph.NoneAfterFailure | src/backend/graph/index.ts:88-100 | a link that fails makes the whole run of links fail |
| Graph.ParentOf | src/backend/graph/index.ts:134-150 | the id the cluster moves up to is the parent of the item's node |
| Graph.MissingAnnotationThrows | src/backend/graph/index.ts:140-144 | an annotation that is not found makes its cluster throw |
| Graph.NoteOfFoundProjectResolves | src/backend/graph/index.ts:134-150 | the cluster of a note whose project is found does not throw |
| Graph.AddEdgeEnds | src/backend/graph/index.ts:88-99 | one step of the edge loop adds that edge's end clusters, first node per id |
| Graph.FirstPerIdIdempotent | src/backend/graph/index.ts:72-99 | keeping the first node per id twice changes nothing |
| Graph.FirstPerIdOfDistinct | src/backend/graph/index.ts:72-99 | nodes with distinct ids are kept as they are |
| Graph.FirstPerIdAppend | src/backend/graph/index.ts:72-99 | de-duplicating the front first does not change the result |
| Graph.GraphNodesDistinct | src/backend/graph/index.ts:72-99 | the graph's node ids are pairwise distinct, and every node of a cluster drawn has its id in the graph |
| Graph.FirstPerIdCount | src/backend/graph/index.ts:72-99 | the graph holds one node per distinct id of its clusters |
| Graph.LoneNoteCluster | src/backend/graph/index.ts:128-174 | the cluster of the only note of a project holds the note and the project and nothing else |
| Graph.ChainLinks | src/backend/graph/graph.vitest.test.ts:26-30 | after the two updateForwardLinks calls of the test the table holds n1→n2 and n0→n1 |
| Graph.ChainTouching | src/backend/graph/graph.vitest.test.ts:26-38 | both links of the chain touch n1 |
| Graph.ChainOfThreeNotes | src/backend/graph/graph.vitest.test.ts:33-39 | the graph of n1 has six nodes, the three notes and the three projects, and two edges |
| Graph.ChainNodes | src/backend/graph/graph.vitest.test.ts:35-37 | the graph of n1 over the two chain links has six nodes |
| Category.FindChild | src/backend/category/index.ts:53-55 | the index of the first child with the key, or -1 exactly when no child has it |
| Category.BuildCategoryTree | src/backend/category/index.ts:47-65 | the loop over the categories builds the tree the walk defines |
| Category.PrefixesContain | src/backend/category/index.ts:49-52 | every deeper "/"-prefix of a category is among its prefixes |
| Category.InsertPartsIds | src/backend/category/index.ts:51-64 | inserting one category adds exactly the paths of its segments from the current depth on |
| Category.BuildTreeIds | src/backend/category/index.ts:31-65 | the tree has a node for every category and every "/"-prefix of one, and for nothing else |
| Category.InsertPartsDistinct | src/backend/category/index.ts:53-62 | reusing the child found by its path keeps siblings distinct |
| Category.BuildTreeDistinct | src/backend/category/index.ts:53-62 | no two siblings of the built tree share an id |
| Category.PathOfStep | src/backend/category/index.ts:52 | the path of a segment is the path of the segment before it, a "/" and the segment |
| Category.InsertPartsNested | src/backend/category/index.ts:51-64 | a walk keeps each child's id its parent's id plus "/" plus its last segment |
| Category.NewChildExtends | src/backend/category/index.ts:56-62 | the node for a segment with the walked children extends its path all the way down |
| Category.BuildTreeNested | src/backend/category/index.ts:52 | in the built tree each child's id is its parent's id, a "/" and its last segment |
| Category.AsTreeNode | src/backend/project/folder.ts:64 | the tree as the project utilities' sortTree sees it keeps ids and child counts, with no labels |
| Category.AsTreeNodeUnlabelled | src/backend/project/folder.ts:64 | no node of a category tree has a label |
| Category.SortTreeKeepsCategoryOrder | src/backend/project/folder.ts:64 | the project utilities' label sortTree leaves the folder module's category tree exactly as built, in insertion order |
| Category.InsertById | src/backend/utils.vitest.test.ts:17-52 | inserting a node into a list keeps every node and adds the new one |
| Category.SortById | src/backend/utils.vitest.test.ts:17-52 | the `_id` sort of a children list is a permutation of it |
| Category.SortTreeById | src/backend/utils.vitest.test.ts:17-52 | the backend utilities' sortTree keeps the node's id and number of children |
| Category.InsertByIdOrdered | src/backend/utils.vitest.test.ts:17-52 | inserting into an `_id`-ordered list keeps it ordered |
| Category.SortByIdOrdered | src/backend/utils.vitest.test.ts:17-52 | the `_id` sort of a children list is ordered |
| Category.SortTreeByIdOrdered | src/backend/utils.vitest.test.ts:17-52 | after sortTree every level of the tree is in `_id` order |
| Category.SortTreeByIdPermutes | src/backend/utils.vitest.test.ts:17-52 | sortTree only reorders: the new children are the old children, each sorted, each as often as before |
| Category.SortTreeByIdIds | src/backend/utils.vitest.test.ts:17-52 | sortTree keeps exactly the ids of the tree |
| Category.SortTreeByIdDistinct | src/backend/utils.vitest.test.ts:17-52 | sortTree keeps siblings distinct at every level |
| Category.SortTreeByIdExtends | src/backend/category/index.ts:66-67 | sortTree keeps every child's id its parent's id, a "/" and its last segment |
| Category.SortTreeByIdNested | src/backend/category/index.ts:66-68 | sorting the root keeps every returned tree nested |
| Category.SortTreeByIdExample | src/backend/utils.vitest.test.ts:17-52 | the test's tree with children 1.4, 1.2 (1.2.2, 1.2.1), 1.1, 1.3 sorts to 1.1, 1.2 (1.2.1, 1.2.2), 1.3, 1.4 |
| Category.InsertNewRoot | src/backend/category/index.ts:56-62 | a one-segment category not yet in the tree becomes a new last root |
| Category.InsertUnderRoot | src/backend/category/index.ts:51-64 | a two-segment category whose second segment is not yet a child becomes the root's last child |
| Category.BuildTreeSnoc | src/backend/category/index.ts:48-65 | one more category is one more walk from the root |
| Category.AddToSingleRoot | src/backend/category/index.ts:51-64 | a single root gains root/seg as its last child |
| Category.RootWithOneChild | src/backend/category/index.ts:47-65 | a root and root/s1 give one root with one child |
| Category.RootWithTwoChildren | src/backend/category/category.vitest.test.ts:12-24 | a root, root/s1 and root/s2 give one root with the two categories as children, root/s1 first |
| Category.BySegmentFirst | src/backend/project/folder.ts:48-63 | the older builder turns a/b on an empty tree into the root a with the child a/b |
| Category.BySegmentSecond | src/backend/project/folder.ts:52-61 | looked up by the bare segment b, the child a/b is not found and a second a/b is created |
| Category.BySegmentDuplicates | src/backend/project/folder.ts:52-61 | as written, a/b then a/b/c gives a two children both called a/b, so siblings are not distinct |
| Category.AllCategories | src/backend/category/fileOps.ts:10 | a category is listed exactly when some project lists it |
| Category.FileCategories | src/backend/category/fileOps.ts:5-16 | each category of some project once; none when the projects cannot be read |
| Category.GetCategories | src/backend/category/index.ts:11-25 | the SQL list when it is non-empty, else the file list when non-empty, else ["library"]; never empty |
| Category.BuildTreeNonEmpty | src/backend/category/index.ts:47-65 | inserting at least one category gives at least one root |
| Category.GetCategoryTree | src/backend/category/index.ts:43-73 | the children of the "root" node of the prefix tree of getCategories after the `_id` sortTree: every level in `_id` order, non-empty, siblings distinct, children extending their parent, and with exactly the prefixes of the categories as ids |
| Category.FolderCategoryTree | src/backend/project/folder.ts:40-70 | the library alone when the projects cannot be read; otherwise the tree of the distinct categories with children looked up by bare segment, which the label sortTree leaves as built |
| CategoryEdits.CategoryLabel | src/backend/project/folder.ts:118-120 | the label holds no "/" |
| CategoryEdits.ParentAndLabel | src/backend/project/folder.ts:118-129 | a category with a "/" is its parent, a "/" and its label; one without has the parent "" and is its own label |
| CategoryEdits.ParentOfChild | src/backend/project/folder.ts:118-129 | the parent of p/x is p and its label x |
| CategoryEdits.SiblingOutsideSubtree | src/backend/project/folder.ts:99-101 | a sibling with a longer name starts with the category yet is not inside it |
| CategoryEdits.Edited | src/backend/category/fileOps.ts:22-25 | a deleting edit keeps exactly the categories it keeps; a renaming edit rewrites each category in place |
| CategoryEdits.ApplyToProjects | src/backend/category/fileOps.ts:19-45 | every loaded project, in order, is handed on with its categories edited; nothing when loading fails |
| CategoryEdits.ReplaceFirstMovesSubtree | src/backend/category/fileOps.ts:23-25 | replace puts the expanded replacement in place of the old path at the head of a category of its subtree, keeping the rest; a new name without "$" moves the category and its subcategories under it |
| CategoryEdits.ReplaceFirstKeepsUnrelated | src/backend/category/fileOps.ts:23-25 | a category not containing the old path is left alone |
| CategoryEdits.ReplaceFirstSelfNoOp | src/backend/category/fileOps.ts:23-25 | renaming a category without "$" to itself changes no list |
| CategoryEdits.RenameToSelfWithDollars | src/backend/category/fileOps.ts:23-25 | renaming "a$$b" to itself yields "a$b": the replacement's `$$` stands for one "$" |
| CategoryEdits.RenameWithMatchPattern | src/backend/category/fileOps.ts:23-25 | renaming "a" to "x$&y" yields "xay": `$&` stands for the matched text |
| CategoryEdits.SubstitutionDollars | src/backend/category/fileOps.ts:23-25 | a replacement whose only "$" are one `$$` pair loses one of them |
| CategoryEdits.ReplaceFirstRenamesSibling | src/backend/category/fileOps.ts:23-25 | as written, renaming library/a to library/b also turns library/ab into library/bb: a sibling sharing the prefix gets the expanded replacement, literally the new name when it has no "$" |
| CategoryEdits.RenameSubtreeKeepsSiblings | src/backend/category/fileOps.ts:19-31 | the corrected rename moves exactly the category and its subcategories under the new name taken literally (as replace does for a name without "$") and leaves every other category alone |
| CategoryEdits.RenameExactOnlyExact | src/backend/project/folder.ts:81-83 | the folder module renames exactly the equal category and nothing else |
| CategoryEdits.RenameExactKeepsOldCategory | src/backend/project/folder.ts:77-89 | as written, renaming from in [from, from/x] leaves from/x behind, so from is still a node of the tree |
| CategoryEdits.RenameSubtreeMovesChildren | src/backend/project/folder.ts:77-89 | the corrected rename moves from/x to to/x |
| CategoryEdits.DropPrefixedRemovesSubtree | src/backend/category/fileOps.ts:37-39 | no kept category starts with the deleted one, and every kept one was there |
| CategoryEdits.DropPrefixedKeepsOthers | src/backend/category/fileOps.ts:37-39 | every category not starting with the deleted one stays |
| CategoryEdits.DropPrefixedDropsSibling | src/backend/project/folder.ts:99-101 | as written, deleting library/a also drops library/ab |
| CategoryEdits.DropSubtreeKeepsSiblings | src/backend/project/folder.ts:95-107 | the corrected delete keeps exactly the categories outside the subtree, so longer-named siblings stay |
| CategoryEdits.MoveIntoMovesDragged | src/backend/project/folder.ts:143-147 | the dragged category's parent is replaced by the expanded drop target, keeping "/" and its label; a drop target without "$" receives it under its own label |
| CategoryEdits.MoveIntoFlattensChild | src/backend/project/folder.ts:143-147 | as written, moving library/a into library/b turns library/a/x into library/b/x, out from under library/b/a (the expanded drop target followed by /x in general) |
| CategoryEdits.MoveSubtreeKeepsChildren | src/backend/project/folder.ts:136-153 | the corrected move puts the dragged category under the drop target taken literally, where the code does for a target without "$", and keeps each subcategory below it |
| Migration.GetPath | src/backend/database/migration/v0.16.3tov0.17.0.ts:116-135 | no set entry is lost, and a known folder has a set entry afterwards |
| Migration.ChildPaths | src/backend/database/migration/v0.16.3tov0.17.0.ts:128-132 | the children's writes lose no set entry |
| Migration.FolderMap | src/backend/database/migration/v0.16.3tov0.17.0.ts:110-113 | every folder's id is a key, and each key maps to a folder of the input with that id |
| Migration.PopulateAll | src/backend/database/migration/v0.16.3tov0.17.0.ts:137-140 | every listed known folder has a set entry afterwards, and none is lost |
| Migration.FolderMapEntries | src/backend/database/migration/v0.16.3tov0.17.0.ts:124-126 | with non-empty labels every folder's own entry is non-empty |
| Migration.IdToPathMapCovers | src/backend/database/migration/v0.16.3tov0.17.0.ts:138-142 | every input folder id gets a non-empty path |
| Migration.GetPathMemoised | src/backend/database/migration/v0.16.3tov0.17.0.ts:117-119 | a set entry is returned as it is and nothing is written |
| Migration.MissingChildGetsSlash | src/backend/database/migration/v0.16.3tov0.17.0.ts:121-131 | a child without a folder record maps to its parent's entry and a bare "/" |
| Migration.GetPathWalk | src/backend/database/migration/v0.16.3tov0.17.0.ts:116-135 | the recursive walk returns the path and the map the specification function gives |
| Migration.BuildIdToPathMap | src/backend/database/migration/v0.16.3tov0.17.0.ts:106-143 | the map built is the specified one, and every folder id has a non-empty path in it |
| Migration.BuildFolderMap | src/backend/database/migration/v0.16.3tov0.17.0.ts:110-113 | the loop builds the folder map, a later record with the same id winning |
| Migration.PopulateStep | src/backend/database/migration/v0.16.3tov0.17.0.ts:138-140 | one more folder is one more getPath on the map so far |
| Migration.SettledFolderIds | src/backend/database/migration/v0.16.3tov0.17.0.ts:60-61 | never empty; a project's own non-empty folder ids are kept |
| Migration.MigrateProject | src/backend/database/migration/v0.16.3tov0.17.0.ts:59-64 | the categories are the settled folder ids looked up in the map, undefined where there is no entry |
| Migration.ChangeFolderIdToCategoryPath | src/backend/database/migration/v0.16.3tov0.17.0.ts:52-69 | nothing without a folder store; otherwise every project, in order, with its categories from the built map |
| Migration.UnfiledProjectGoesToLibrary | src/backend/database/migration/v0.16.3tov0.17.0.ts:59-64 | a project without folder ids lands in the library folder and its path |
| Migration.ThreeLevelsMap | src/backend/database/migration/v0.16.3tov0.17.0.ts:110-113 | the folder map of library / A / B holds the three folders |
| Migration.GrandchildWalk | src/backend/database/migration/v0.16.3tov0.17.0.ts:116-135 | the walk from the library folder gives A "library/A" and B "A/B" |
| Migration.LeafPath | src/backend/database/migration/v0.16.3tov0.17.0.ts:121-134 | the walk at a folder without children sets and returns its own entry |
| Migration.ParentPath | src/backend/database/migration/v0.16.3tov0.17.0.ts:124-134 | the walk at a folder with one child sets its own entry, walks the child, then prefixes the child's path with its own entry |
| Migration.GrandchildLosesRoot | src/backend/database/migration/v0.16.3tov0.17.0.ts:106-143 | as written, library / A / B gives B the path "A/B", a top-level category, instead of "library/A/B" |
| Migration.PopulateAllSet | src/backend/database/migration/v0.16.3tov0.17.0.ts:117-119 | ids whose entries are all set leave the map as it is |
| Migration.FullPath | src/backend/database/migration/v0.16.3tov0.17.0.ts:116-135 | the corrected walk never changes a set entry, sets the folder's entry, and returns the entry it holds |
| Migration.FullChildPaths | src/backend/database/migration/v0.16.3tov0.17.0.ts:128-133 | the corrected children loop never changes a set entry |
| Migration.FullPathExtends | src/backend/database/migration/v0.16.3tov0.17.0.ts:116-135 | the corrected walk keeps every entry either the folder's own entry or the entry of a folder listing it as a child, a "/" and its own entry |
| Migration.FullChildPathsExtends | src/backend/database/migration/v0.16.3tov0.17.0.ts:128-133 | the corrected children loop keeps that shape |
| Migration.ChildStep | src/backend/database/migration/v0.16.3tov0.17.0.ts:128-133 | one child of the corrected loop keeps the shape and the parent's entry |
| Migration.FullPopulateAllExtends | src/backend/database/migration/v0.16.3tov0.17.0.ts:137-140 | walking every folder in turn keeps the shape |
| Migration.FullIdToPathMapExtends | src/backend/database/migration/v0.16.3tov0.17.0.ts:106-143 | for every list of folders, each entry of the corrected map is the folder's own entry or a holder's entry, a "/" and its own entry, so no level between a folder and its holder is dropped |
| Migration.IdToPathMapBreaksShape | src/backend/database/migration/v0.16.3tov0.17.0.ts:106-143 | the map as written breaks that shape: library / A / B gives B "A/B" |
| Migration.FullPopulateAll | src/backend/database/migration/v0.16.3tov0.17.0.ts:137-140 | the corrected population sets every known folder's entry |
| Migration.FullWalk | src/backend/database/migration/v0.16.3tov0.17.0.ts:116-135 | the corrected walk from the library folder gives B "library/A/B" |
| Migration.FullPathKeepsRoot | src/backend/database/migration/v0.16.3tov0.17.0.ts:20-21 | the corrected map gives library / A / B the full path "library/A/B" |
| JsonDb.FolderFor | src/backend/database/jsondb.ts:32-46 | the prefixes SP, SA, SS and SF route to project, pdfAnnotation, pdfState and folder; any other id to a folder named after the id |
| JsonDb.GetResult | src/backend/database/jsondb.ts:30-49 | no workspace fails with "storagePath not set"; otherwise the lookup succeeds exactly when the routed file exists |
| JsonDb.DocPathSplit | src/backend/database/jsondb.ts:53-58 | a document's path is the workspace's segments followed by ".sophosia", the folder and "<id>.json" |
| JsonDb.DocPathInjective | src/backend/database/jsondb.ts:53-58 | documents in different folders or with different ids live in different files |
| JsonDb.PutThenGet | src/backend/database/jsondb.ts:39-59 | get reads what put wrote exactly when the data type is the folder get routes the id to; otherwise get sees what it saw before |
| JsonDb.PutKeepsOthers | src/backend/database/jsondb.ts:51-60 | put leaves every other document's file alone |
| JsonDb.DocPathInDir | src/backend/database/jsondb.ts:53-81 | a document's file is "<id>.json" inside the folder of its data type |
| JsonDb.DocsIn | src/backend/database/jsondb.ts:79-92 | a document is listed exactly when a file directly in the data type's folder holds it |
| JsonDb.PutThenListed | src/backend/database/jsondb.ts:51-92 | getDocs lists every document put wrote under its data type |
| JsonDb.SetPathConfig | src/backend/database/jsondb.ts:120-151 | the path becomes current and is listed, added only when absent; the scan time is kept; without a config a fresh one lists just the path with scan time 0 |
| JsonDb.SetPathIdempotent | src/backend/database/jsondb.ts:133-135 | setting the same path twice is setting it once |
| JsonDb.SetPathKeepsDistinct | src/backend/database/jsondb.ts:135 | a list without repeats stays without repeats |
| JsonDb.StoragePathsOf | src/backend/database/jsondb.ts:179-192 | the listed paths, or the current path alone when the list is missing or empty; nothing without a config |
| JsonDb.SetPathListed | src/backend/database/jsondb.ts:120-192 | after setStoragePath the path is among the listed workspaces |
| JsonDb.Without | src/backend/database/jsondb.ts:203-205 | every entry but the removed path is kept |
| JsonDb.RemovePathConfig | src/backend/database/jsondb.ts:198-213 | every occurrence of the path is removed and the current path cleared if it matched; a config without a list is left unwritten |
| JsonDb.RemovedPathNotListed | src/backend/database/jsondb.ts:179-213 | after removeStoragePath the path is no longer listed |
| JsonDb.Renamed | src/backend/database/jsondb.ts:225-227 | every entry equal to the old path becomes the new one, the rest stay in place |
| JsonDb.MoveConfig | src/backend/database/jsondb.ts:219-235 | a config without a list is left unwritten |
| JsonDb.MoveReplacesOld | src/backend/database/jsondb.ts:225-228 | the old path is gone from the list and the current path, the new one takes its places, and nothing else changes |
| JsonDb.MoveToSelf | src/backend/database/jsondb.ts:225-228 | moving a workspace to where it is changes nothing |
| JsonDb.JsonDB.constructor | src/backend/database/jsondb.ts:20-21 | the store starts without a workspace |
| JsonDb.JsonDB.Get | src/backend/database/jsondb.ts:30-49 | the result is the routed lookup |
| JsonDb.JsonDB.Put | src/backend/database/jsondb.ts:51-60 | fails without a workspace and changes nothing; otherwise writes the document's file |
| JsonDb.JsonDB.Post | src/backend/database/jsondb.ts:62-66 | fails without a workspace; otherwise the document gets the fresh id and is put |
| JsonDb.JsonDB.Remove | src/backend/database/jsondb.ts:68-77 | fails without a workspace or when the file is missing; otherwise the file is gone |
| JsonDb.JsonDB.GetDocs | src/backend/database/jsondb.ts:79-92 | fails without a workspace; otherwise the documents in the data type's folder |
| JsonDb.JsonDB.BulkDocs | src/backend/database/jsondb.ts:94-105 | fails without a workspace; otherwise every document is put in turn |
| JsonDb.JsonDB.GetStoragePath | src/backend/database/jsondb.ts:107-118 | the configured path becomes current; "" without a config |
| JsonDb.JsonDB.SetStoragePath | src/backend/database/jsondb.ts:120-151 | the config becomes the updated one and the path current |
| JsonDb.JsonDB.GetStoragePaths | src/backend/database/jsondb.ts:179-192 | the listed workspaces |
| JsonDb.JsonDB.RemoveStoragePath | src/backend/database/jsondb.ts:198-213 | only the config changes, as RemovePathConfig states |
| JsonDb.JsonDB.MoveWorkspace | src/backend/database/jsondb.ts:219-235 | the config changes as MoveConfig states |
| JsonDb.PutAll | src/backend/database/jsondb.ts:94-105 | every document's file exists afterwards, and no file disappears |
| WindowStore.FindIn | src/stores/windowStore.ts:137-149 | the walk returns a page of some stack of the layout that satisfies the predicate, and returns nothing only when no page of the layout satisfies it |
| WindowStore.IndexOfPage | src/stores/windowStore.ts:163-165 | `findIndex`: the first page with the id, or -1 exactly when no page has it |
| WindowStore.InsertInPages | src/stores/windowStore.ts:157-174 | insertPage adds exactly the new page to the layout's pages when some stack holds the target, and keeps every other page |
| WindowStore.InsertWithoutTarget | src/stores/windowStore.ts:157-174 | when no stack holds the target the layout is unchanged |
| WindowStore.InsertInStack | src/stores/windowStore.ts:162-169 | in a stack holding the target the page is spliced in right after the first target page, the other pages keeping their order |
| WindowStore.WithoutPage | src/stores/windowStore.ts:213-215 | a stack's filter keeps exactly the pages whose id differs from the removed one |
| WindowStore.NonEmpty | src/stores/windowStore.ts:217-219 | a row's or column's filter keeps exactly the children that have children |
| WindowStore.CleanedPages | src/stores/windowStore.ts:212-224 | processing one node (filtering, collapsing a single child into its parent) loses only pages with the removed id |
| WindowStore.RemoveFrom | src/stores/windowStore.ts:196-229 | removeNode's bounded post-order walk never invents pages and keeps every page whose id is not the removed one; on a root stack it leaves exactly the stack without the removed pages; it reports where the source would throw on a node without two children |
| WindowStore.Merge | src/stores/windowStore.ts:243 | `Object.assign` takes every field the new page sets and keeps the old values of the optional fields it leaves out |
| WindowStore.LastIndexOfPage | src/stores/windowStore.ts:239-251 | the walk pops a stack's pages from the end: the last page with the id, or -1 exactly when none has it |
| WindowStore.RenameFound | src/stores/windowStore.ts:236-253 | replaceNode finds a match exactly when some node or page has the target id, and without a match the layout is unchanged |
| WindowStore.RenamePages | src/stores/windowStore.ts:236-253 | replacing keeps every page with another id, and every page it adds is a target page overwritten by the new page |
| WindowStore.WithoutId | src/stores/windowStore.ts:94 | the history filter keeps exactly the entries different from the closed id, never growing |
| WindowStore.Store.constructor | src/stores/windowStore.ts:8-13 | no layouts, "library" current, empty history |
| WindowStore.Store.Current | src/stores/windowStore.ts:16-19 | the `layout` getter gives this window's layout exactly when one is stored |
| WindowStore.Store.SetActive | src/stores/windowStore.ts:123-127 | activating the current id changes nothing; otherwise the old current id, when non-empty, is pushed on the history and the id becomes current |
| WindowStore.Store.FindPage | src/stores/windowStore.ts:137-149 | without a layout nothing is found; otherwise a found page is a matching page of the layout, and nothing found means no page matches |
| WindowStore.Store.InsertPage | src/stores/windowStore.ts:157-174 | without a layout nothing changes; otherwise only this window's layout is replaced by the insertion |
| WindowStore.Store.OpenPage | src/stores/windowStore.ts:75-86 | a page already present leaves the layout alone; a new one is inserted after the current page, or after the last history entry when the current id already is the page's; then `setActive(page.id)` (`Activated`): the page becomes current and the previous current id, when not empty and not the page, is pushed onto the history |
| WindowStore.Store.RemoveNode | src/stores/windowStore.ts:196-229 | only this window's layout changes, losing only pages with the removed id; a root stack loses exactly those pages |
| WindowStore.Store.ClosePage | src/stores/windowStore.ts:92-108 | the closed id leaves the history and, when it was current, the last remaining history entry is popped into its place ("" when none); a root stack loses the page, and an emptied root stack gets the visible library page, which is activated; a row or column root keeps every other page and gains at most the library page; with no layout the history is updated and the call fails |
| WindowStore.AfterClose | src/stores/windowStore.ts:94-96 | the closed id is never left in the history; a current closed id is replaced by the last remaining entry, which leaves the history, or by "" |
| WindowStore.Activated | src/stores/windowStore.ts:123-127 | the id becomes current, and the old current item, when it differs and is not "", is pushed onto the history |
| WindowStore.Store.RenamePage | src/stores/windowStore.ts:115-117 | only this window's layout changes, to the result of replaceNode |
| WindowStore.Store.LoadLayout | src/stores/windowStore.ts:28-40 | a window other than "main" changes nothing; the main window stores the loaded layout and keeps its current item when some page has that id; otherwise a page of the layout, when there is one, is activated, and with no page nothing else changes |
| WindowStore.Store.SaveLayout | src/stores/windowStore.ts:42-45 | the layout is written exactly from the main window, and it is this window's layout |
| WindowStore.Store.OpenWindow | src/stores/windowStore.ts:50-64 | only the main window opens windows; the new window's layout is one stack holding the page made visible |
| LayoutStore.Opened | src/stores/layoutStore.ts:34-46 | after openPage the item maps to a reference id holding the page; a known item keeps its reference id, a new one gets the fresh id; the set of open items grows by the item alone |
| LayoutStore.Renamed | src/stores/layoutStore.ts:62-69 | an unknown old id changes nothing; otherwise the new id takes over the old reference id, which now holds the new page, and the old id is gone |
| LayoutStore.OpenKeepsRefs | src/stores/layoutStore.ts:34-46 | openPage keeps every item's reference id resolving to a page |
| LayoutStore.RenameKeepsRefs | src/stores/layoutStore.ts:62-69 | renamePage keeps every item's reference id resolving to a page |
| LayoutStore.OpenRenameKeepDistinct | src/stores/layoutStore.ts:34-69 | with a fresh reference id unused, and a rename to an id not yet open, no two items come to share a reference id |
| LayoutStore.OpenKeepsOthers | src/stores/layoutStore.ts:40-45 | opening a new item with an unused reference id leaves every other item's reference and page as they were |
| LayoutStore.RenameBack | src/stores/layoutStore.ts:62-69 | renaming to an unused id and back restores the item map |
| LayoutStore.Store.constructor | src/stores/layoutStore.ts:16-26 | "library" current, empty maps, nothing added, renamed or closed |
| LayoutStore.Store.OpenPage | src/stores/layoutStore.ts:34-46 | the maps become the opened maps; a known item becomes current, a new one is recorded as the added page; references keep resolving |
| LayoutStore.Store.ClosePage | src/stores/layoutStore.ts:52-55 | only the closed id is recorded, and only for an open item |
| LayoutStore.Store.RenamePage | src/stores/layoutStore.ts:62-69 | the maps become the renamed maps and the new page is recorded for a known old id; references keep resolving |
| ProjectStore.Ids | src/stores/projectStore.ts:75 | the ids of the projects, position by position |
| ProjectStore.FilterShown | src/stores/projectStore.ts:206-213 | keeps exactly the listed projects the show-references and show-notebooks flags let through, never more |
| ProjectStore.FilterShownCases | src/stores/projectStore.ts:206-213 | both flags keep every project, neither keeps none, only notebooks keeps exactly the "notebook" projects, only references exactly the others |
| ProjectStore.FindProject | src/stores/projectStore.ts:88-90 | finds a project with the id exactly when one is loaded |
| ProjectStore.IndexOfId | src/stores/projectStore.ts:186 | `findIndex`: the first project with the id, or -1 exactly when none has it |
| ProjectStore.AppendIfNew | src/stores/projectStore.ts:125-130 | a project whose id is already listed leaves the list alone; otherwise it is appended |
| ProjectStore.AppendIfNewDistinct | src/stores/projectStore.ts:146-149 | appending only new ids keeps the ids of the list distinct, and the id is listed afterwards |
| ProjectStore.ReplaceProject | src/stores/projectStore.ts:161-170 | the first project with the id is overwritten by the new project; without one the list is unchanged |
| ProjectStore.RemoveAt | src/stores/projectStore.ts:189 | `splice(ind, 1)`: the list without the entry at the index, the rest in order |
| ProjectStore.RemoveOnly | src/stores/projectStore.ts:186-189 | with distinct ids, removing the entry of an id leaves every other project and none with that id |
| ProjectStore.SelectionAfterDelete | src/stores/projectStore.ts:190 | as written, the selection keeps exactly the entries equal to the deleted id |
| ProjectStore.DeleteSelectionInverted | src/stores/projectStore.ts:190 | deleting a project unselects every other project and keeps the deleted one selected when it was |
| ProjectStore.SelectionWithout | src/stores/projectStore.ts:190 | the evidently intended selection: exactly the entries other than the deleted id |
| ProjectStore.SelectionWithoutForgetsDeleted | src/stores/projectStore.ts:190 | the intended selection forgets the deleted id, keeps every other entry, and is idempotent |
| ProjectStore.Saved | src/stores/projectStore.ts:74-81 | saveState returns the opened ids without repeats, exactly the opened ones, and the selected category |
| ProjectStore.OpenedFrom | src/stores/projectStore.ts:108-119 | the opened projects are the distinct ids looked up, in first-seen order |
| ProjectStore.SaveLoadRoundTrip | src/stores/projectStore.ts:62-119 | saving opened projects with distinct ids and loading them back through a lookup that finds each gives the same opened projects and category |
| ProjectStore.Store.constructor | src/stores/projectStore.ts:42-54 | not initialized, both kinds shown, nothing selected, loaded or opened, the "library" category selected |
| ProjectStore.Store.LoadOpenedProjects | src/stores/projectStore.ts:108-119 | the opened projects become the looked-up distinct ids |
| ProjectStore.Store.LoadProjects | src/stores/projectStore.ts:201-214 | the loaded projects become the listed ones the filter lets through |
| ProjectStore.Store.LoadState | src/stores/projectStore.ts:62-68 | a no-op once initialized; otherwise the category, the opened projects and the projects are loaded and the store is initialized |
| ProjectStore.Store.SaveState | src/stores/projectStore.ts:74-81 | returns the saved state of the opened projects and the category |
| ProjectStore.Store.GetProject | src/stores/projectStore.ts:88-90 | the loaded project with the id, if any |
| ProjectStore.Store.OpenProject | src/stores/projectStore.ts:125-130 | the project is appended to the opened ones only when its id is not open yet |
| ProjectStore.Store.AddProject | src/stores/projectStore.ts:146-149 | the project is appended to the loaded ones only when its id is not loaded yet |
| ProjectStore.Store.UpdateProjectUI | src/stores/projectStore.ts:161-173 | the matching entry of both the loaded and the opened projects becomes the new project, which is recorded as updated |
| ProjectStore.Store.DeleteProject | src/stores/projectStore.ts:186-193 | an unknown id changes nothing; otherwise exactly that entry leaves the loaded projects, and the selection keeps only the entries equal to the deleted id, as the filter is written |
| ProjectStore.Store.EditCategories | src/stores/projectStore.ts:356-376 | every loaded project's categories are edited the same way, nothing else changes |
| ProjectStore.Store.UpdateCategory | src/stores/projectStore.ts:352-361 | every category of every loaded project has its first occurrence of the old text replaced by the new one with `$$`, `$&`, `` $` `` and `$'` expanded, as `replace` does, so a sibling with a longer name is renamed too |
| ProjectStore.Store.DeleteCategory | src/stores/projectStore.ts:368-377 | every category starting with the text is removed from every loaded project, as `startsWith` does, so a sibling with a longer name goes too; the rest stay in order |
| AppState.OrInt | src/stores/appState.ts:52-56 | `stored \|\| current` for a size: a stored non-zero number wins, a zero or missing one keeps the current value |
| AppState.OrBool | src/stores/appState.ts:53-58 | `stored \|\| current` for a flag: true exactly when the stored flag is true or the current one is |
| AppState.OrString | src/stores/appState.ts:59-62 | `stored \|\| current` for a text: a stored non-empty text wins, an empty or missing one keeps the current value |
| AppState.MergeSettings | src/stores/appState.ts:64 | stored setting keys override, every other current key keeps its value, and no key is lost |
| AppState.Loaded | src/stores/appState.ts:52-64 | after loading, the opened project ids are exactly the stored ones, each once |
| AppState.AsStored | src/stores/appState.ts:69-84 | a written-back state carries the opened ids as an array and the settings |
| AppState.LoadSavedRoundTrip | src/stores/appState.ts:52-84 | loading the state a store saved gives that store's state back |
| AppState.LoadFalsyKeeps | src/stores/appState.ts:52-62 | a stored state with nothing truthy in it keeps every current scalar; only the opened ids are replaced |
| AppState.LoadIdempotent | src/stores/appState.ts:52-64 | loading the same stored state twice is loading it once |
| AppState.FindItem | src/stores/appState.ts:99-108 | ids with "/" are looked up as notes and others as projects; only when that finds nothing is the id looked up as an annotation |
| AppState.ProjectToOpen | src/stores/appState.ts:109 | `item.projectId \|\| itemId`: a note's or annotation's non-empty project id, else the item id |
| AppState.OpenItem | src/stores/appState.ts:94-136 | an empty id opens nothing, and a page is only opened together with a project |
| AppState.OpenProjectNeedsPdf | src/stores/appState.ts:113-118 | a project id opens the project, and opens its reader page exactly when it has a PDF |
| AppState.OpenNoteByType | src/stores/appState.ts:119-123 | a note id opens a note page for a markdown note and a drawing page for an excalidraw note |
| AppState.OpenAnnotationFocuses | src/stores/appState.ts:124-130 | an annotation id opens the reader page of its project focused on the annotation |
| AppState.OpenUnknownItem | src/stores/appState.ts:103-108 | an id no lookup finds opens nothing |
| AppState.Store.constructor | src/stores/appState.ts:17-47 | the store's initial flags, sizes, folder, settings and current item |
| AppState.Store.LoadState | src/stores/appState.ts:50-67 | the saved part of the store becomes the loaded state |
| AppState.Store.GetState | src/stores/appState.ts:69-84 | returns the saved part of the store |
| AppState.Store.SaveAppState | src/stores/appState.ts:203-211 | nothing is written until ready; then the state is written with the opened projects' ids in order |
| AppState.Store.ToggleWelcome | src/stores/appState.ts:138-144 | flips the flag without an argument and sets it to the argument otherwise |
| AppState.Store.ToggleLeftMenu | src/stores/appState.ts:151-157 | flips the flag without an argument and sets it to the argument otherwise |
| AppState.Store.TogglePDFMenuView | src/stores/appState.ts:164-170 | flips the flag without an argument and sets it to the argument otherwise |
| ChatStore.StateIds | src/stores/chatStore.ts:54 | the ids of the chat states, position by position |
| ChatStore.OrEmpty | src/stores/chatStore.ts:43 | `synced \|\| []`: the synced messages, or none |
| ChatStore.Added | src/stores/chatStore.ts:40-46 | a state whose id already has a message list changes nothing; otherwise the state is appended and its id gets the synced messages |
| ChatStore.WithMessage | src/stores/chatStore.ts:48-52 | the message is appended only to an existing list, every other list and the states unchanged |
| ChatStore.IndexOfState | src/stores/chatStore.ts:54 | `findIndex`: the first state with the id, or -1 exactly when none has it |
| ChatStore.Removed | src/stores/chatStore.ts:53-59 | the first state with the id is spliced out (an unknown id leaves the states alone) and its message entry is deleted either way |
| ChatStore.OperationsKeepConsistent | src/stores/chatStore.ts:40-59 | adding, appending messages and removing keep chat ids distinct and every chat with a message list |
| ChatStore.AddedConsistent | src/stores/chatStore.ts:40-46 | adding keeps the chats consistent |
| ChatStore.WithMessageConsistent | src/stores/chatStore.ts:48-52 | appending a message keeps the chats consistent |
| ChatStore.RemovedConsistent | src/stores/chatStore.ts:53-59 | removing keeps the chats consistent |
| ChatStore.IndexOfAppended | src/stores/chatStore.ts:44-54 | a state whose id is new is found at the end after it is appended |
| ChatStore.AddThenRemove | src/stores/chatStore.ts:40-59 | removing a chat state just added restores the chats |
| ChatStore.SyncedFromKeys | src/stores/chatStore.ts:111-114 | after loadState's loop the message keys are the stored ones plus the listed chats' ids, and an unlisted id keeps its stored list |
| ChatStore.SyncedFromLast | src/stores/chatStore.ts:111-114 | a listed chat ends with its synced messages, or none |
| ChatStore.LoadedConsistent | src/stores/chatStore.ts:102-115 | loading saved chats with distinct ids leaves every chat with a message list |
| ChatStore.Store.constructor | src/stores/chatStore.ts:18-25 | not initialized, hidden, no current chat, no chats, no modal |
| ChatStore.Store.ToggleChatVisibility | src/stores/chatStore.ts:27-29 | flips the visibility |
| ChatStore.Store.ShowChat | src/stores/chatStore.ts:30-32 | sets the visibility |
| ChatStore.Store.HideChat | src/stores/chatStore.ts:33-35 | clears the visibility |
| ChatStore.Store.SetCurrentChatState | src/stores/chatStore.ts:36-39 | sets the current chat and shows the chat |
| ChatStore.Store.AddChatState | src/stores/chatStore.ts:40-46 | the chats become the added chats |
| ChatStore.Store.AddMessageToChatState | src/stores/chatStore.ts:48-52 | the chats become the chats with the message |
| ChatStore.Store.RemoveChatState | src/stores/chatStore.ts:53-59 | the chats become the removed chats |
| ChatStore.Store.OpenModal | src/stores/chatStore.ts:61-63 | shows the modal |
| ChatStore.Store.HideModal | src/stores/chatStore.ts:64-66 | hides the modal |
| ChatStore.Store.LoadState | src/stores/chatStore.ts:102-115 | only the first call loads: visibility, states and current chat from the saved state, and each listed chat's messages replaced by its synced ones |
| ChatStore.Store.SaveState | src/stores/chatStore.ts:117-124 | returns exactly the four chat fields |
| AccountStore.KeyValues | src/stores/accountStore.ts:67 | the fragment with its first "#" dropped, split on "&", is never an empty list |
| AccountStore.NoEquals | src/stores/accountStore.ts:74 | a pair without "=" is all key and has no value |
| AccountStore.PairParts | src/stores/accountStore.ts:74 | a pair `k=v`, or `k=v=rest`, has key `k` and value `v`: the text between the first and second "=" |
| AccountStore.LastValueSpec | src/stores/accountStore.ts:73-78 | the value kept for a key is that of the last pair with the key, and nothing is kept exactly when no pair has it |
| AccountStore.ParsedParams | src/stores/accountStore.ts:66-78 | each token and the type is the value of the last pair with its key, the text after the first "=" up to the next one, and stays "" when no pair has that key |
| AccountStore.TwoPairs | src/stores/accountStore.ts:67 | a fragment "#p1&p2" has the pairs p1 and p2 |
| AccountStore.LastOfTwo | src/stores/accountStore.ts:73-78 | of two pairs, the later one with the key wins |
| AccountStore.TwoTokens | src/stores/accountStore.ts:66-78 | a fragment of an access token pair and a refresh token pair yields those tokens and an empty type |
| AccountStore.Account.constructor | src/stores/accountStore.ts:18-22 | not initialized, no email, a hidden auth dialog |
| AccountStore.Account.LoadState | src/stores/accountStore.ts:27-39 | the store is initialized, and a user is signed in exactly when the session has a non-empty email, which becomes the user's |
| AccountStore.Account.ParseTokens | src/stores/accountStore.ts:67-78 | the loop over the pairs computes the parsed tokens and type |
| AccountStore.Account.ParseURL | src/stores/accountStore.ts:66-95 | the parsed tokens go to the session and the state is reloaded, so the user is signed in exactly when the new session has an email; a recovery link then switches to the reset-password view, registers the password update and shows the dialog; any other link closes the dialog; no callback runs |
| AccountStore.Account.SignInWithTokens | src/stores/accountStore.ts:103-113 | after setting the session the state is reloaded: initialized, and signed in with the session's email exactly when it has a non-empty one |
| DialogController.Toggled | src/components/dialogs/dialogController.ts:20-23 | no argument flips the flag, an argument sets it |
| DialogController.ToggleTwice | src/components/dialogs/dialogController.ts:20-23 | toggling twice without an argument restores the flag; setting twice is setting once |
| DialogController.Dialog.constructor | src/components/dialogs/dialogController.ts:8-10 | hidden, with no callback and none run |
| DialogController.Dialog.Show | src/components/dialogs/dialogController.ts:12-14 | sets visible |
| DialogController.Dialog.Close | src/components/dialogs/dialogController.ts:16-18 | clears visible |
| DialogController.Dialog.Toggle | src/components/dialogs/dialogController.ts:20-23 | the flag becomes the toggled flag |
| DialogController.Dialog.OnConfirm | src/components/dialogs/dialogController.ts:25-27 | the callback replaces any earlier one |
| DialogController.Dialog.Confirm | src/components/dialogs/dialogController.ts:29-34 | without a callback it fails with the source's message and changes nothing; otherwise the dialog is closed and the callback runs exactly once |
| AnnotationStore.AnnotIds | src/backend/pdfannotation/annotationStore.ts:54 | the ids of the annotations, position by position |
| AnnotationStore.IndexOfAnnot | src/backend/pdfannotation/annotationStore.ts:54 | `findIndex`: the first annotation with the id, or -1 exactly when none has it |
| AnnotationStore.FindById | src/backend/pdfannotation/annotationStore.ts:102-104 | getById finds the first annotation with the id, and nothing exactly when none has it |
| AnnotationStore.OnPage | src/backend/pdfannotation/annotationStore.ts:98-100 | getByPage keeps exactly the annotations on the page |
| AnnotationStore.OnPageAppend | src/backend/pdfannotation/annotationStore.ts:98-100 | the page filter keeps order: the page's annotations of a concatenation are those of each part in turn |
| AnnotationStore.OnPageSnoc | src/backend/pdfannotation/annotationStore.ts:98-100 | one more annotation adds itself to its own page's list only, at the end |
| AnnotationStore.InkOnPage | src/backend/pdfannotation/annotationStore.ts:106-112 | getInk finds an ink annotation on the page, and nothing exactly when the page has none |
| AnnotationStore.InkIsFirst | src/backend/pdfannotation/annotationStore.ts:106-112 | the ink annotation found is the first one on that page |
| AnnotationStore.Added | src/backend/pdfannotation/annotationStore.ts:32-37 | add appends only an annotation whose id is not there yet |
| AnnotationStore.Deleted | src/backend/pdfannotation/annotationStore.ts:53-60 | delete splices out the first annotation with the id; an unknown id changes nothing |
| AnnotationStore.AddKeepsIdsDistinct | src/backend/pdfannotation/annotationStore.ts:36 | adding never makes two annotations share an id, and the id is present afterwards |
| AnnotationStore.DeleteRemovesOnly | src/backend/pdfannotation/annotationStore.ts:53-60 | with distinct ids, deleting leaves no annotation with the id, keeps every other one, and removes exactly one when the id was there |
| AnnotationStore.AddThenDelete | src/backend/pdfannotation/annotationStore.ts:32-60 | deleting an annotation just added restores the list |
| AnnotationStore.Backfilled | src/backend/pdfannotation/annotationStore.ts:77-82 | an annotation without an added timestamp gets the clock as both timestamps; the others are unchanged |
| AnnotationStore.SelectedIsActive | src/backend/pdfannotation/annotationStore.ts:114-120 | after setActive the selected annotation is active and every annotation with another id is not |
| AnnotationStore.BackfillSettles | src/backend/pdfannotation/annotationStore.ts:77-82 | with a non-zero clock the repair leaves an added timestamp, and repairing twice changes nothing more |
| AnnotationStore.Store.constructor | src/backend/pdfannotation/annotationStore.ts:8-25 | the project, no annotations, nothing selected |
| AnnotationStore.Store.Selected | src/backend/pdfannotation/annotationStore.ts:19-21 | `selected` is an annotation with the selected id, and nothing exactly when no annotation has that id |
| AnnotationStore.Store.Add | src/backend/pdfannotation/annotationStore.ts:32-37 | the annotations become the added list |
| AnnotationStore.Store.Delete | src/backend/pdfannotation/annotationStore.ts:53-60 | the annotations become the deleted list |
| AnnotationStore.Store.GetByPage | src/backend/pdfannotation/annotationStore.ts:98-100 | returns the page's annotations |
| AnnotationStore.Store.GetById | src/backend/pdfannotation/annotationStore.ts:102-104 | returns the first annotation with the id |
| AnnotationStore.Store.GetInk | src/backend/pdfannotation/annotationStore.ts:106-112 | returns the first ink annotation on the page |
| AnnotationStore.Store.SetActive | src/backend/pdfannotation/annotationStore.ts:114-120 | selects the id and makes exactly the annotations with it active, nothing else changing |
| AnnotationStore.LoadFromDB | src/backend/pdfannotation/annotationStore.ts:66-96 | every loaded annotation is repaired, and the flag for saving back is raised exactly when some annotation lacked an added timestamp |
| PdfReader.JsRem | src/backend/pdfreader/index.ts:557 | JavaScript's `%`: a remainder with the sign of the dividend, smaller in size than the divisor |
| PdfReader.NextPage | src/backend/pdfreader/index.ts:556-558 | the page index after a step is always a page of the document |
| PdfReader.NextPageWraps | src/backend/pdfreader/index.ts:556-558 | stepping forward from the last page gives the first and backward from the first gives the last; otherwise it moves by one |
| PdfReader.StepsFrom | src/backend/pdfreader/index.ts:555-563 | the page reached after some steps is a page of the document |
| PdfReader.DistanceShrinks | src/backend/pdfreader/index.ts:555-563 | each step brings the loop one page closer to a page with matches, so the loop ends |
| PdfReader.ChangeMatch | src/backend/pdfreader/index.ts:541-571 | a selected page outside the document throws exactly when the step does not go below match 0; otherwise the new selection is always a valid match and the page number shown is its page index plus one; a step inside the current page stays there; otherwise the first page with matches in the direction of the step is chosen, with its first match going forward and its last going back |
| PdfReader.MatchesBeforeGrows | src/backend/pdfreader/index.ts:235-237 | the matches counted before a page never decrease, and a page's matches all come before a later page's |
| PdfReader.UpdateMatchesCount | src/backend/pdfreader/index.ts:230-239 | a (-1, -1) selection resets the counter to current -1 and total 0; otherwise current is the selected match's index plus one plus the matches of the earlier pages |
| PdfReader.CounterPosition | src/backend/pdfreader/index.ts:230-239 | a valid selection's counter lies between 1 and the total number of matches, and distinct selections get distinct counters |
| PdfReader.ToTocAll | src/backend/pdfreader/index.ts:470-485 | one table-of-contents entry per outline entry of a level |
| PdfReader.Dfs | src/backend/pdfreader/index.ts:470-485 | `_dfs`'s loop builds the table of contents of the outline |
| PdfReader.ToTocAllSnoc | src/backend/pdfreader/index.ts:472-483 | each outline entry's table-of-contents entry is pushed after those of the entries before it |
| PdfReader.TocKeepsEntries | src/backend/pdfreader/index.ts:470-485 | the table of contents has as many entries as the outline, all levels counted |
| PdfReader.TocEntry | src/backend/pdfreader/index.ts:473-481 | each entry takes its outline entry's title and converted items; a string destination is copied, a non-empty array destination gives its first element as the reference |
| PdfReader.PdfStateId | src/backend/pdfreader/index.ts:277 | the saved view's id is "SS" followed by the project id without its first two characters |
| PdfReader.LoadState | src/backend/pdfreader/index.ts:275-300 | a missing saved view gives nothing; otherwise the saved fields override the defaults for the project |
| PdfReader.LoadStateFields | src/backend/pdfreader/index.ts:280-299 | a saved view with every field comes back whole; one with no field gives the project's defaults, on page 1 |
| EmbedMigration.ParseLegacyRects | src/backend/pdfreader/embedAnnotationMigration.ts:24-32 | missing or empty rectangles and unparsable text give none, an array is kept, parsable text gives what it parses to |
| EmbedMigration.SupportedTypes | src/backend/pdfreader/embedAnnotationMigration.ts:175-184 | supportedLegacyType and shouldMigrateLegacyType accept the same types: highlight, underline, strike-out, rectangle, comment and ink |
| EmbedMigration.NormalizeSqlRow | src/backend/pdfreader/embedAnnotationMigration.ts:186-199 | a row keeps its ids and type, a missing type becomes highlight; a page or timestamp `Number` cannot read as finite becomes 1 or the clock, a NULL one 0, a number stays; the rectangles are parsed |
| EmbedMigration.ToNumber | src/backend/pdfreader/embedAnnotationMigration.ts:34-37 | a finite number is kept, null reads as 0, anything else gives the fallback |
| EmbedMigration.NullPageNotMigrated | src/backend/pdfreader/embedAnnotationMigration.ts:186-199 | a row with a NULL page reads as page 0 and is not migrated |
| EmbedMigration.NormalizeDoc | src/backend/pdfreader/embedAnnotationMigration.ts:167-173 | a document keeps its ids and type and has its rectangles parsed |
| EmbedMigration.NormalizedRows | src/backend/pdfreader/embedAnnotationMigration.ts:213-214 | one normalized annotation per row |
| EmbedMigration.DocsOfProject | src/backend/pdfreader/embedAnnotationMigration.ts:224-226 | the documents read are only the project's |
| EmbedMigration.UnseenSpec | src/backend/pdfreader/embedAnnotationMigration.ts:213-231 | the loop keeps annotations of the input with non-empty, unseen, pairwise distinct ids and a supported type, and keeps an id for every annotation it could take |
| EmbedMigration.LegacyAnnotationsSpec | src/backend/pdfreader/embedAnnotationMigration.ts:201-233 | the loaded annotations have non-empty, distinct ids and supported types; they are rows when any row is kept, and the project's documents otherwise |
| EmbedMigration.LoadLegacyAnnotations | src/backend/pdfreader/embedAnnotationMigration.ts:201-233 | the two loops compute the loaded annotations |
| EmbedMigration.Clamp | src/backend/pdfreader/embedAnnotationMigration.ts:39-41 | within the bounds when they are ordered, and unchanged when already inside |
| EmbedMigration.ToUnits | src/backend/pdfreader/embedAnnotationMigration.ts:56-69 | a percentage of a page dimension, clamped, lies on the page |
| EmbedMigration.ScaleBack | src/backend/pdfreader/embedAnnotationMigration.ts:53-81 | a percentage in [0, 100] survives the trip to page units and back |
| EmbedMigration.PercentToPdf | src/backend/pdfreader/embedAnnotationMigration.ts:53-72 | every coordinate and size of the converted rectangle lies on the page |
| EmbedMigration.PercentRoundTrip | src/backend/pdfreader/embedAnnotationMigration.ts:53-81 | a rectangle with all percentages in [0, 100] survives the trip to page units and back |
| EmbedMigration.LeastSpec | src/backend/pdfreader/embedAnnotationMigration.ts:90-91 | the least edge is at most every rectangle's edge and is one of them |
| EmbedMigration.MostSpec | src/backend/pdfreader/embedAnnotationMigration.ts:92-93 | the greatest edge is at least every rectangle's edge and is one of them |
| EmbedMigration.UnionBounds | src/backend/pdfreader/embedAnnotationMigration.ts:83-99 | nothing exactly for no rectangles; otherwise a box containing every rectangle, each of whose edges is an edge of some rectangle |
| EmbedMigration.UnionRects | src/backend/pdfreader/embedAnnotationMigration.ts:83-99 | the loop computes the bounding box |
| EmbedMigration.Converted | src/backend/pdfreader/embedAnnotationMigration.ts:140-146 | a flat point list read pairwise and scaled from the drawing to the page, an odd last number dropped |
| EmbedMigration.ParseKonvaInkList | src/backend/pdfreader/embedAnnotationMigration.ts:114-165 | the loops compute the drawing's strokes, colour and width as written |
| EmbedMigration.ParseLayer | src/backend/pdfreader/embedAnnotationMigration.ts:133-154 | one layer's shapes extend the strokes and the colour scan, and the width stays 1 |
| EmbedMigration.ParseStep | src/backend/pdfreader/embedAnnotationMigration.ts:134-153 | a pen line with at least two points adds its converted stroke; the colour is the first stroke's non-empty one |
| EmbedMigration.ConvertPoints | src/backend/pdfreader/embedAnnotationMigration.ts:140-146 | the inner point loop computes the converted points |
| EmbedMigration.StrokeWidthIgnored | src/backend/pdfreader/embedAnnotationMigration.ts:130-153 | as written, a drawing whose one stroke is 5 wide reports width 1, where the intended reading reports 5 |
| EmbedMigration.KonvaInkAsWritten | src/backend/pdfreader/embedAnnotationMigration.ts:114-165 | an empty content or an unparsable drawing gives no strokes and no width or colour; otherwise any width reported is 1, as the loop is written |
| EmbedMigration.KonvaInkOf | src/backend/pdfreader/embedAnnotationMigration.ts:114-165 | the intended reading keeps the strokes and colour of the loops as written |
| EmbedMigration.FirstWidthSpec | src/backend/pdfreader/embedAnnotationMigration.ts:151-153 | the intended width is that of a stroke with a finite width, and no earlier stroke has one; there is none exactly when no stroke has one |
| EmbedMigration.PageSizeFor | src/backend/pdfreader/embedAnnotationMigration.ts:48-51 | the size of a page of the document, and nothing exactly for an index that is no page |
| EmbedMigration.NormalizeColor | src/backend/pdfreader/embedAnnotationMigration.ts:43-46 | yellow without a colour, the colour otherwise |
| EmbedMigration.DefaultCommentRect | src/backend/pdfreader/embedAnnotationMigration.ts:101-112 | an icon-sized box at least 22 units each way, kept on the page when it fits |
| EmbedMigration.Segments | src/backend/pdfreader/embedAnnotationMigration.ts:245-247 | one page rectangle per old rectangle |
| EmbedMigration.Percents | src/backend/pdfreader/embedAnnotationMigration.ts:366-367 | one percent rectangle per segment |
| EmbedMigration.BoxOf | src/backend/pdfreader/embedAnnotationMigration.ts:248-252 | the box contains every segment |
| EmbedMigration.Base | src/backend/pdfreader/embedAnnotationMigration.ts:253-262 | a converted annotation keeps the old id, the page index and the box, and records the old id under the migration's source |
| EmbedMigration.AsMarkup | src/backend/pdfreader/embedAnnotationMigration.ts:265-288 | highlight, underline and strike-out carry the colour as stroke colour and at least one segment, the box itself when there are none |
| EmbedMigration.AsSquare | src/backend/pdfreader/embedAnnotationMigration.ts:289-299 | a rectangle is a square with the colour as fill and border |
| EmbedMigration.AsNote | src/backend/pdfreader/embedAnnotationMigration.ts:300-309 | a comment is a note icon in its own box holding the text, with the colour |
| EmbedMigration.AsInk | src/backend/pdfreader/embedAnnotationMigration.ts:310-324 | an ink drawing converts exactly when it has strokes, and carries them |
| EmbedMigration.EmbedOn | src/backend/pdfreader/embedAnnotationMigration.ts:253-327 | a converted annotation keeps the id and page, records the old id, and has a subtype that maps back to the old type; an ink annotation is converted through the drawing parser as written, so its width is always 1 |
| EmbedMigration.FirstColor | src/backend/pdfreader/embedAnnotationMigration.ts:382-388 | the colour read back is never empty |
| EmbedMigration.LegacyToEmbedNone | src/backend/pdfreader/embedAnnotationMigration.ts:235-328 | conversion gives nothing exactly when the page does not exist, the type is unsupported, or an ink drawing has no stroke |
| EmbedMigration.LegacyToEmbedShape | src/backend/pdfreader/embedAnnotationMigration.ts:235-328 | a converted annotation carries the old id twice, the page index one below the page number, and a subtype that maps back to the old type |
| EmbedMigration.LegacyToEmbedSegments | src/backend/pdfreader/embedAnnotationMigration.ts:245-288 | a converted markup annotation has at least one segment, one per old rectangle when there are any, each inside its box |
| EmbedMigration.RoundTrip | src/backend/pdfreader/embedAnnotationMigration.ts:235-402 | converting and converting back keeps the id, type and page number, gives the target project, keeps the content and normalized colour of every type but ink, and keeps one rectangle per markup segment |
| EmbedMigration.LegacyToEmbedFields | src/backend/pdfreader/embedAnnotationMigration.ts:257-309 | a converted annotation other than ink keeps its text, and its colour sits in the field the way back reads first |
| EmbedMigration.EmbedToLegacyFields | src/backend/pdfreader/embedAnnotationMigration.ts:349-402 | the way back gives the target project, reads the text from the contents (ink aside) and the colour from the stroke colour first for ink and markup, from the colour first otherwise |
| EmbedMigration.EmbedToLegacyShape | src/backend/pdfreader/embedAnnotationMigration.ts:349-402 | the way back gives something exactly for a mapped subtype on an existing page; the page number is the index plus one, the colour is non-empty, markup has one rectangle per segment and everything else one |
| PluginManager.SetStatusSpec | src/backend/plugin/index.ts:243-247 | setting a plugin's status makes it that plugin's status, leaves every other plugin's alone, keeps ids distinct and adds only that id |
| PluginManager.SetStatusSame | src/backend/plugin/index.ts:243-247 | setting a status the plugin already has changes nothing |
| PluginManager.DeleteStatusSpec | src/backend/plugin/index.ts:120 | deleting a plugin's status leaves it without one and every other plugin's alone |
| PluginManager.StatusOfFirst | src/backend/plugin/index.ts:292-294 | the status of an id is that of its first entry |
| PluginManager.Toggled | src/backend/plugin/index.ts:243-246 | the toggled status has the requested enabled flag; a plugin without status is not updatable, one with status keeps its updatable flag |
| PluginManager.OwnPrefix | src/backend/plugin/index.ts:186-193 | every button and view a plugin registers starts with its id and a dash |
| PluginManager.KeptAsWritten | src/backend/plugin/index.ts:254-259 | as written, disabling keeps exactly the items whose id does not start with the plugin id |
| PluginManager.DisableDropsExtendingPlugin | src/backend/plugin/index.ts:254-259 | as written, disabling a plugin also drops the items of a plugin whose id extends it |
| PluginManager.Kept | src/backend/plugin/index.ts:254-259 | the evidently intended filter keeps exactly the items whose id does not start with the plugin id and a dash |
| PluginManager.PrefixesDisjoint | src/backend/plugin/index.ts:186-193 | for ids without dashes, another plugin's items never start with this plugin's id and a dash |
| PluginManager.KeptSeparatesPlugins | src/backend/plugin/index.ts:254-259 | the intended filter drops this plugin's items and keeps every other plugin's |
| PluginManager.OfComponentSpec | src/backend/plugin/index.ts:284-290 | the getters keep exactly the items of the component |
| PluginManager.WithManifestSpec | src/backend/plugin/index.ts:172-175 | a loaded manifest is listed afterwards, ids stay distinct, and no manifest is lost |
| PluginManager.WithoutManifest | src/backend/plugin/index.ts:122-124 | deleting keeps exactly the manifests with another id |
| PluginManager.ToLoadSpec | src/backend/plugin/index.ts:138-140 | loadAll loads plugins of the status map not loaded yet, each once, and every listed plugin ends up loaded |
| PluginManager.Manager.constructor | src/backend/plugin/index.ts:47-54 | no status, manifests, plugins, buttons, views or calls |
| PluginManager.Manager.AddButton | src/backend/plugin/index.ts:186-189 | the button is appended with its id prefixed by the plugin id and a dash |
| PluginManager.Manager.AddView | src/backend/plugin/index.ts:190-193 | the view is appended with its id prefixed by the plugin id and a dash |
| PluginManager.Manager.SaveStatus | src/backend/plugin/index.ts:274-278 | the saved status is the status map |
| PluginManager.Manager.LoadStatus | src/backend/plugin/index.ts:267-272 | a stored status replaces the map; without one the map is kept |
| PluginManager.Manager.Toggle | src/backend/plugin/index.ts:239-261 | a plugin that is not loaded changes nothing; otherwise its status becomes the toggled one and is saved, the plugin is enabled or disabled, and disabling drops every button and view whose id starts with the plugin's id, as written |
| PluginManager.Manager.Delete | src/backend/plugin/index.ts:119-128 | the plugin's status, instance and manifest are removed and the status is saved |
| PluginManager.Manager.Load | src/backend/plugin/index.ts:158-178 | an unreadable manifest fails and changes nothing; otherwise the manifest is listed once, the instance is stored under the id, and the plugin is toggled as `toggle` does, dropping by bare id prefix when disabled |
| PluginManager.Manager.LoadUnreadable | src/backend/plugin/index.ts:158-161 | loading a plugin whose manifest cannot be read fails and registers nothing |
| PluginManager.Manager.LoadListed | src/backend/plugin/index.ts:138-140 | loading a listed plugin stores its instance, registers its manifest, keeps the status map, calls it once with its status and toggles its buttons and views as `toggle` does |
| PluginManager.Manager.LoadAll | src/backend/plugin/index.ts:136-141 | loadAll succeeds exactly when every plugin to load can be read; it then keeps the loaded status map, calls each plugin to load once, in order, leaves every listed plugin loaded, registers their manifests in order and applies their toggles to the buttons and views in order |
| PluginManager.Manager.GetButtons | src/backend/plugin/index.ts:284-286 | the buttons of the component |
| PluginManager.Manager.GetViews | src/backend/plugin/index.ts:288-290 | the views of the component |
| PluginManager.Manager.GetStatus | src/backend/plugin/index.ts:292-294 | the plugin's status, if any |

## Left out

**Outside the core**
- `src-tauri/src/main.rs` only builds the Tauri app with one plugin and one command, so it has nothing to model.
- These are third-party or stale code and are not part of this model:
  - vendored `node_modules`;
  - `project/project.ts`, `project/scan.ts`, `project/note.ts`, `project/graph.ts` and `project/file.ts`.
- Pure I/O plumbing is not part of this model:
  - the SQL schema (`database/sqlite.ts`);
  - the database handles (`database/index.ts`, `indexeddb.ts`);
  - `project/indexer.ts` and `category/sqliteOps.ts`;
  - the file moves of the older migrations;
  - `appState/index.ts` and `layout/index.ts`;
  - `stateStore.ts` and its debounce timing.

  `getCategories` takes the result of its SQL query as an input.
- Network clients are not modelled:
  - `conversationAgent`;
  - Supabase authentication, and with it the accountStore actions `signUp`, `signIn`, `signInWithOAuth`, `signOut`, `resetPassword` and `updateUser`;
  - `chatStore.syncMessages`. Its result enters `ChatStore` as an input.
  - the plugin manager's `getCommunityManifests`, `download` and `reloadAll`.
- The DOM and UI are not modelled:
  - window creation in `windowStore.openWindow`;
  - golden-layout's own configuration in `layoutStore.loadLayout` and `saveLayout`;
  - `windowStore.wrappedInStack`, `wrappedInCol` and `wrappedInRow`, which only build layout values for callers outside the core;
  - the theme, font-size and translation toggles of `appState`;
  - the PDF reader's `loadPDF`, `getTOCPage`, `clickTOC`, `searchText` (pdf.js calls), event wiring and zoom;
  - the plugin's style link and its dynamic `import`.
- Floating point is not modelled:
  - rectangles use exact reals;
  - the Konva ink scaling is modelled on reals without rounding;
  - zoom clamps and scroll ratios are left out.
- Regular-expression rewriting is not modelled: `batchReplaceLink`, the ISBN/DOI extraction and Cite-based `getMeta`, and `PluginManager.filter`.
- `nanoid`, the clock, `JSON.parse` of stored documents and drawings, and dialog answers are parameters.

**Operations left out of the stores**
- `projectStore`: `renamePDF`, `attachPDF`, `addNode`, `renameNode`, `deleteNode`, `createNode`, `getProjectFromDB`, `getNoteFromDB` and `getCategoryTree` forward to backend functions modelled in their own modules. Their UI-side bookkeeping is not modelled.
- `annotationStore.update` merges a partial record into an annotation object. It is left out because the merge is a property-by-property `Object.assign`.
- `EmbedMigration`: `saveLegacyAnnotation` and `deleteLegacyAnnotation` are database writes and are not part of this model.
- `PluginManager`: these bind plugin code to the app and are left out:
  - the layout and data bindings that `_load` hands to a plugin;
  - `getPluginStatus` and `updatePluginStatus` seen from the plugin side.
- `JsonDb`: the creation of hidden folders is a file-system call and is not modelled.

**Weaker contracts and modelling choices**
- SortTree (ProjectUtils.SortTree): `sortTree` reassigns `children` in place on a shared tree. The model returns the sorted tree as a value, so aliasing between the caller's nodes is not captured.
- NodeCluster (Graph.NodeCluster): the parent chain is followed at most `fuel` steps. The source recurses without a bound, and does not terminate on a cycle of parents.
- GetGraph (Graph.GetGraph): inherits the `fuel` bound of `Graph.NodeCluster`. A throw is `ok` false with no nodes or edges; the error message is not modelled.
- IdToPathMap (Migration.IdToPathMap): requires every folder label to be non-empty. The source recurses forever on a cycle of folders with an empty label, so the model does not cover that input.
- BuildIdToPathMap (Migration.BuildIdToPathMap): carries the same precondition as `Migration.IdToPathMap`.
- ChangeFolderIdToCategoryPath (Migration.ChangeFolderIdToCategoryPath): carries the same precondition as `Migration.IdToPathMap`.
- ChangeMatch (PdfReader.ChangeMatch): requires the page count to equal the number of pages, delta to be ±1 and some page to hold a match. Without these, the source's loop does not terminate. A selected page outside the document is modelled: `None` stands for the TypeError thrown when the loop test reads the length of its missing match list.
- RemoveFrom (WindowStore.RemoveFrom): returns `ok == false` where the source throws (a row or column without the child it reads). The exception itself is not modelled.
- RemoveFrom (WindowStore.RemoveFrom): the loop drops emptied children and replaces a row or column left with one child by that child (`WindowStore.Cleaned`), but the contract states only which pages survive and the result for a root stack. The shape of the tree after the ten-step walk, with its test on the id of the node processed last, has no closed form here.
- RemoveNode (WindowStore.Store.RemoveNode): states what `WindowStore.RemoveFrom` states, with the same gap about the collapse of rows and columns.
- ClosePage (WindowStore.Store.ClosePage): for a row or column root, it states which pages survive but not the collapsed shape, for the reason given at `WindowStore.RemoveFrom`.
- RenameIn (WindowStore.RenameIn): a row, column or stack whose own id is the target ends the walk unchanged. The source's `Object.assign` copies the page's fields onto that node, which gets the page's id and type and keeps its children; the layout type cannot hold such a node.
- RenamePage (WindowStore.Store.RenamePage): inherits the gap of `WindowStore.RenameIn` for a matching row, column or stack.
- LoadLayout (WindowStore.Store.LoadLayout): when the current item is not on a page, the page activated is some page of the layout; which one the search finds first is not stated.
- ProjectFromTables (SqliteOps.ProjectFromTables): the label uses the untranslated title. The `showTranslatedTitle` setting lives in the settings store, which is UI state.
- ProjectFromTables (SqliteOps.ProjectFromTables): reads each tag row's `tag` field, the corrected read. As written the code reads the `category` field, so every tag is undefined; `SqliteOps.TagsAsWritten` and `SqliteOps.AddThenGetTagsAsWritten` state that behaviour.
- AddThenGetProject (SqliteOps.AddThenGetProject): the tags read back are those of the corrected read in `ProjectFromTables`. As written they are all undefined, one per distinct tag (`SqliteOps.AddThenGetTagsAsWritten`).
- GetProjects (SqliteOps.GetProjects): each table contributes its values once. The row multiplication of the `GROUP_CONCAT` join over authors, categories and tags is not modelled.
- GetProjects (SqliteOps.GetProjects): is the corrected list. Every query concatenates as the category query does, and a NULL author group decodes as no authors. As written, the favourites and recently-added queries join tags with "," and names as "given family", and one project without authors empties the whole list. `SqliteOps.GetProjectsAsWritten`, `SqliteOps.GetProjectsAsWrittenEmpty`, `SqliteOps.GetProjectsAsWrittenLists`, `SqliteOps.GetProjectsAsWrittenAgrees` and `SqliteOps.FavoriteTagsAsWritten` state the written behaviour.
- GetProjectsSelects (SqliteOps.GetProjectsSelects): is about the corrected `GetProjects`. As written, the list is empty as soon as one selected project has no author (`SqliteOps.GetProjectsAsWrittenEmpty`), so "listed exactly when the WHERE clause holds" holds only when every selected project has an author (`SqliteOps.GetProjectsAsWrittenAgrees`).
- GetAllProjects (SqliteOps.GetAllProjects): is the corrected library list. As written it is that list when every library project has an author and empty otherwise (`SqliteOps.GetAllProjectsAsWritten`).
- GetProjectsReadsBack (SqliteOps.GetProjectsReadsBack): is about the corrected `GetProjects`. As written, a favourite's tags a and b read back as the one tag "a,b" (`SqliteOps.FavoriteTagsAsWritten`).
- RemoveDanglingData (Scan.RemoveDanglingData): every table is keyed by the project id that the source's `meta_id` column holds. The SQL placeholders are not modelled.
- Extname (TauriPath.Extname): is `None` for a last segment without a `.`, where Tauri throws.
- SignInWithTokens (AccountStore.Account.SignInWithTokens): the session the authentication service sets is an input, given by its email. The error dialog shown when `setSession` fails is not modelled.
- AuthorFamily (Meta.AuthorFamily): lowercases with `Strings.Lower`, which folds only the ASCII letters A-Z. JavaScript's `toLowerCase` folds every cased letter, so a family name "Émile" gives "Émile" in the model and "émile" in the source. Unicode case mapping is not modelled.
- TitlePart (Meta.TitlePart): lowercases with the same ASCII-only `Strings.Lower`, so a title word with a non-ASCII capital keeps that capital in the key, where the source lowers it.
- CiteKey (Meta.CiteKey): inherits the ASCII-only lowering of `Meta.AuthorFamily` and `Meta.TitlePart`.
- GenerateCiteKey (Meta.GenerateCiteKey): inherits the ASCII-only lowering of `Meta.AuthorFamily` and `Meta.TitlePart`.
- SortByLabel (ProjectUtils.SortByLabel): compares labels with `ProjectUtils.StrLess`, character by character on Unicode scalar values. JavaScript's `<` compares UTF-16 code units, so a label with a character above U+FFFF can sort before one with a character in U+E000-U+FFFF where the source sorts it after. The order of other labels is the same.
- SortByLabelSorted (ProjectUtils.SortByLabelSorted): the order is that of `ProjectUtils.StrLess`, with the same code-point caveat.
- SortTreeSortsChildren (ProjectUtils.SortTreeSortsChildren): the order is that of `ProjectUtils.StrLess`, with the same code-point caveat.
- SortNotes (Notes.SortNotes): the order is that of `ProjectUtils.StrLess`, with the same code-point caveat.
- FolderRows (Notes.FolderRows): the selection is a plain prefix test; the case-insensitive ASCII matching of SQLite's LIKE and the wildcards `_` and `%` inside a folder id are not modelled.
- ItemNode (Graph.ItemNode): is defined for every id, including a missing annotation or project; the throw the source raises there is modelled by `Graph.ClusterResolves`, and `Graph.GetGraph` uses no node of a cluster that does not resolve.
- UpdateProject (ProjectIndex.UpdateProject): the renames are returned as a value rather than performed; `renameFolder` (which also rewrites note ids and links) is not part of this model. The store writes that follow (the SQL update, saving the project note, reading back the PDF and note tree) are not performed; the SQL update is `SqliteOps.UpdateProject`.
- NormalizeSqlRow (EmbedMigration.NormalizeSqlRow): a cell is classified before `Number` sees it, so text that reads as a number is `Finite` and other text `NotFinite`; the parsing of numeric text and fractional values are not modelled.
- FullIdToPathMap (Migration.FullIdToPathMap): for every input the proof shows only that each entry is the folder's own entry or a holder's entry, a "/" and its own entry. A folder that the list names before the folder holding it is walked from the top and keeps its own entry; the corrected walk keeps that dependence on order, as the source does.
- GetDocs (JsonDb.JsonDB.GetDocs): returns a set. The order in which `readDir` lists the files is up to the operating system and is not modelled; the store holds only parsed documents, so the `undefined` entry that a file which does not parse gives is not modelled either.
- MoveWorkspace (JsonDb.JsonDB.MoveWorkspace): updates only the configuration. Renaming the folder on disk is file I/O, and a failed read or write of workspace.json, which the source swallows, is not modelled.
- GetNotes (Notes.GetNotes): selects the table rows with the corrected `Notes.FolderRows`. As written the quoted pattern never sees the folder id, so the row branch is taken only for ids that start with the literal text "$1" (`Notes.LikeRowsAsWritten`), and otherwise the listing branch runs.
- SortTreeById (Category.SortTreeById): `src/backend/utils.ts` is not part of this model. The sort follows its test at `src/backend/utils.vitest.test.ts:17-52`: children ordered by `_id`, every level sorted. That test cannot tell whether a node with one child is recursed into; the model recurses into every child. The in-place reordering is modelled as a new value.
- RenamedNote (Notes.RenamedNote): the update of the links table at `src/backend/note/index.ts:174-188` is not modelled. As written, that statement repeats the SET keyword, which SQLite rejects, so `renameNote` would land in its catch and return undefined after the file was renamed and the links rewritten. The statement's WHERE also tests `target = $2`, the new id, rather than the old one. The model returns the note that the function evidently means to return.
- LoadOpenedProjects (ProjectStore.Store.LoadOpenedProjects): the `sortTree(project)` call at `src/stores/projectStore.ts:113` is not modelled. It orders the note tree of each opened project by `_id`, but the note trees of projects are not part of the store's model. The `_id` sort itself is modelled on category nodes as `Category.SortTreeById`.
- ReplaceFirstSelfNoOp (CategoryEdits.ReplaceFirstSelfNoOp): requires the category to hold no "$". Renaming a category to itself with `replace` expands `$$`, `$&`, `` $` `` and `$'` in the new name, so "a$$b" becomes "a$b" (`CategoryEdits.RenameToSelfWithDollars`) and the list is no longer unchanged.
- ReplaceFirstMovesSubtree (CategoryEdits.ReplaceFirstMovesSubtree): the category lands under the new name taken literally only when that name holds no "$"; in general the head of the category becomes `Strings.Substitution` of the new name, since `replace` expands its `$` patterns.
- ReplaceFirstRenamesSibling (CategoryEdits.ReplaceFirstRenamesSibling): the sibling becomes the new name followed by the rest literally only when the new name holds no "$"; in general its head is `Strings.Substitution` of the new name.
- RenameSubtreeKeepsSiblings (CategoryEdits.RenameSubtreeKeepsSiblings): the corrected rename agrees with `replace` on the subtree only for a new name without "$"; it takes the name literally, which is what renaming a category means, where `replace` would expand `$$`, `$&`, `` $` `` and `$'`.
- MoveIntoMovesDragged (CategoryEdits.MoveIntoMovesDragged): the dragged category lands under the drop target taken literally only when the target holds no "$"; in general the parent is replaced by `Strings.Substitution` of the target.
- MoveIntoFlattensChild (CategoryEdits.MoveIntoFlattensChild): the child becomes the drop target followed by its label literally only when the target holds no "$"; in general the head is `Strings.Substitution` of the target.
- MoveSubtreeKeepsChildren (CategoryEdits.MoveSubtreeKeepsChildren): the corrected move places the dragged category where `replace` does only for a drop target without "$"; it takes the target literally, where `replace` would expand its `$` patterns.

## Findings

| source | as written | input that shows it | evidently intended | confidence | as-written member | corrected member |
|---|---|---|---|---|---|---|
| src/backend/project/sqliteOps.ts:172-189 | the tag rows are read through their `category` field | any project with tags: every tag reads as undefined | read each row's `tag` field | not executed | SqliteOps.TagsAsWritten | SqliteOps.TagsReadValues |
| src/backend/project/sqliteOps.ts:206-282 | the favourites query joins tags with "," while the decoder splits on "\|" | a favourite project with tags a and b yields the one tag "a,b" | tags a and b | not executed | SqliteOps.FavoriteTagsAsWritten | SqliteOps.FavoriteTagsCorrected |
| src/backend/project/sqliteOps.ts:284-294 | `authors.split` on a NULL group throws and the whole list is dropped | two projects, one without authors: no project is returned | the project without authors gets an empty author list | not executed | SqliteOps.ProjectWithoutAuthorsHidesAll | SqliteOps.DecodeRows |
| src/backend/note/index.ts:256 | the `LIKE` pattern is quoted, so `$1` is literal text and the folder id is never used | a notes table holding "p/a.md" and the folder "p": nothing is selected and the folder is listed instead | the note ids that start with the folder id | not executed | Notes.LikeRowsAsWrittenMissesFolder | Notes.FolderRows |
| src/backend/note/index.ts:490-493 | the links statement puts a literal `$` in front of the placeholder list | one note id gives the list "$$1" | "$1", one `$` per note id, as in the notes statement | not executed | Notes.LinksInListAsWrittenExtra | Notes.LinksInListParameters |
| src/backend/category/fileOps.ts:23-25 | `replace` of the old category on every category; the project store repeats the loop at src/stores/projectStore.ts:356-360 | renaming "library/a" to "library/b" also turns the sibling "library/ab" into "library/bb" | only the category and its subcategories are renamed | not executed | CategoryEdits.ReplaceFirstRenamesSibling | CategoryEdits.RenameSubtreeKeepsSiblings |
| src/backend/project/folder.ts:99-101 | deletion keeps categories that do not `startsWith` the deleted one; the project store repeats the filter at src/stores/projectStore.ts:372-376 | deleting "library/a" also drops "library/ab" | drop only the category and its subcategories | not executed | CategoryEdits.DropPrefixedDropsSibling | CategoryEdits.DropSubtreeKeepsSiblings |
| src/backend/project/folder.ts:81-83 | the rename changes only categories equal to the old one | renaming a in [a, a/x] leaves a/x, so a is still in the tree | subcategories move with it | not executed | CategoryEdits.RenameExactKeepsOldCategory | CategoryEdits.RenameSubtreeMovesChildren |
| src/backend/project/folder.ts:143-147 | each moved category's own parent is replaced by the drop target | moving library/a into library/b turns library/a/x into library/b/x | library/b/a/x | not executed | CategoryEdits.MoveIntoFlattensChild | CategoryEdits.MoveSubtreeKeepsChildren |
| src/backend/project/folder.ts:52-61 | children are looked up by bare segment while their ids are full paths | [a/b, a/b/c] gives node a two children both called a/b | one node per path | not executed | Category.BySegmentDuplicates | Category.BuildTreeDistinct |
| src/backend/database/migration/v0.16.3tov0.17.0.ts:128-133 | a child's path is the parent's path joined with the child's own `getPath` | library / A / B gives B the path "A/B" | "library/A/B" | not executed | Migration.IdToPathMapBreaksShape | Migration.FullIdToPathMapExtends |
| src/stores/projectStore.ts:190 | the selection keeps entries equal to the deleted id | selection [p, q], deleting p leaves [p] | [q] | not executed | ProjectStore.DeleteSelectionInverted | ProjectStore.SelectionWithoutForgetsDeleted |
| src/backend/pdfreader/embedAnnotationMigration.ts:130-153 | the width starts at 1 and is replaced only while it is falsy | a drawing whose one line is 5 wide reports width 1 | the first stroke's width, 5 | not executed | EmbedMigration.StrokeWidthIgnored | EmbedMigration.FirstWidthSpec |
| src/backend/plugin/index.ts:254-259 | disabling keeps items whose id does not `startsWith` the plugin id | disabling plugin "p" drops the buttons of plugin "p2" | drop only ids starting with "p-" | not executed | PluginManager.DisableDropsExtendingPlugin | PluginManager.KeptSeparatesPlugins |
