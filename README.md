# code-horizon core in Dafny

code-horizon is an online code editor with a snippet-sharing community. A
Convex backend keeps five tables: users, code executions, snippets, snippet
comments and stars. Signed-in users sync their account, run code, save
executions, share snippets, comment on them and star them. Free users may run
only JavaScript. A Lemon Squeezy webhook upgrades an account to Pro, which
unlocks every language. In the browser, a Zustand store holds the editor
state: language, theme, font size, output, error and the running flag. It
persists settings and per-language code in local storage, and runs code
through the Piston execution API. A profile-page component shows each code
block collapsed to six lines, with a toggle.

The model has these parts:

- `Tables`: the database as one `Database` object. It has a sequence per
  table in insertion order, plus the document-id counter shared by all
  tables. `Valid()` says ids are below the counter and ascend within each
  table, and that user subjects are unique. It also has the lookups the
  mutations share.
- `Users`: `syncUser`, `getUser` and `upgradeToPro`.
- `CodeExecutions`: the Pro gate of `saveExecution`, the listing, and
  `getUserStats`.
- `CountMaps`: the `Record<string, number>` counters built by `reduce`.
  Each is a sequence of entries in key-insertion order, next to the two ways
  the source picks a maximum:
  - the favourite language is a left `reduce`, where the later key wins a tie;
  - the most starred language is a stable descending sort, where the earlier
    key wins.
- `Snippets`: the snippet, comment and star mutations and queries.
- `EditorStore`: the client store. It covers:
  - the JavaScript `trim`, `Number` and `toString` it relies on;
  - the local-storage round trips;
  - the classification of a Piston reply in `runCode`;
  - `runCode` cut at its `await` into `StartRun` and `FinishRun`, so the
    running state between them is visible, and the reply is classified for
    the code captured before the request.
- `CodeBlock`: `split("\n")`, `slice(0, 6)`, `join("\n")` and the expand
  toggle.

Mutations are methods on the `Database` (`modifies db`). Each throws its
`Error` value on a failed guard, with the database unchanged; otherwise it
changes exactly the tables the source touches. Queries are functions of the
tables. The identity from `ctx.auth.getUserIdentity()` is an `Option<Identity>`
parameter. `Date.now()` and `_creationTime` are a `now` parameter. The fetch
to Piston is a `Fetched` value: either the parsed reply or "threw".

Where a description of the system and the code differ, the model follows the
code:

- `runCode` rejects only the empty string. Whitespace-only code is sent.
- An empty `message`, `stderr` or `output` counts as absent, because the
  source tests them for truthiness. So a failed phase reports `stderr` when
  it is non-empty and `output` otherwise, and an empty message falls through.
- Every exception inside `try` gives "Error running code". That includes a
  language missing from the configuration table, where reading
  `.pistonRuntime` on `undefined` throws.
- The star lookup in `starSnippet` and `isSnippetStarred` puts two
  conditions together with JavaScript `&&` inside `filter`. The left operand
  is an always-truthy expression object, so the filter keeps only the
  `snippetId` condition:
  - a toggle removes the snippet's first star, whoever placed it;
  - `isSnippetStarred` reports whether anyone starred the snippet.

  `Snippets.StarredForEveryone` and `Snippets.StarToggleCount` state these
  consequences. Toggling and deleting keep every snippet at no more than one
  star (`Snippets.ToggleKeepsOneStarPerSnippet`,
  `Snippets.DeleteKeepsOneStarPerSnippet`); on such a table a toggle flips
  what `isSnippetStarred` reports.
- `favoriteLanguage` and `mostStarredLanguage` break ties in opposite
  directions. `CodeExecutions.TieBreaksDiffer` shows one input where they
  disagree.
- Both statistics return "N/A" when nothing was counted. A language really
  named "N/A" cannot be told apart from that.
- `getUserExecutions` paginates. The model returns the whole ordered result,
  newest first.
- `setLanguage` saves the current code under the old language but does not
  load the new language's code into the editor. Only `setEditor` reads saved
  code.

## Model

| member | source | states |
|---|---|---|
| Tables.Database.constructor | convex/schema.ts:4-45 | a fresh deployment has five empty tables and satisfies the table invariant |
| Tables.IndexOfUserId | convex/users.ts:14 | the position found is the first user with that subject; none means no user has it |
| Tables.FindUser | convex/snippets.ts:16-22 | `.first()` on the subject filter: a user with that subject from the table, or none exactly when no user has it |
| Tables.GetSnippet | convex/snippets.ts:53-54 | `ctx.db.get` on a snippet id: the snippet with that id, or none exactly when no snippet has it |
| Tables.GetComment | convex/snippets.ts:156-157 | `ctx.db.get` on a comment id: the comment with that id, or none exactly when none has it |
| Tables.NewestFirst | convex/snippets.ts:172 | descending creation order: the same elements, position i holding the i-th newest |
| Tables.StarsOf | convex/snippets.ts:253-257 | exactly the stars whose userId is the given user |
| Tables.ResolveStars | convex/snippets.ts:259-261 | `Promise.all(get)` then dropping nulls: only existing snippets that one of the stars points at, and every existing starred snippet; no longer than the stars |
| Tables.ResolveStarsAppend | convex/snippets.ts:259-261 | one more star adds its snippet at the end when the snippet still exists and nothing otherwise, so the result follows the order of the stars |
| Tables.ResolveStarsCounts | convex/snippets.ts:259-261 | each snippet occurs in the result once for every star that resolves to it |
| Users.NewUser | convex/users.ts:17-22 | the inserted user carries the given subject, email and name, is not Pro and has no Lemon Squeezy data |
| Users.SyncedUsers | convex/users.ts:14-23 | a known subject leaves the users table as it was; an unknown one appends exactly one new user |
| Users.SyncUser | convex/users.ts:13-24 | the users table becomes the synced table; the id counter advances only on insert; no other table changes |
| Users.SyncKeepsOnePerUser | convex/users.ts:14-23 | syncing keeps subjects unique and leaves the subject present |
| Users.SyncIdempotent | convex/users.ts:14-23 | syncing the same subject a second time changes nothing, whatever email and name are passed |
| Users.SyncKeepsFound | convex/users.ts:14-23 | after a sync the subject's lookup succeeds |
| Users.FindUserAfterAppend | convex/users.ts:17-22 | appending a user changes a subject's lookup only when the subject was absent and is the appended one's |
| Users.GetUser | convex/users.ts:30-41 | an empty userId gives null; a present subject gives that user, the only one with the subject when subjects are unique |
| Users.IndexOfEmail | convex/users.ts:57-60 | the position found is the first user with that email; none means no user has it |
| Users.Upgraded | convex/users.ts:64-69 | the patch sets isPro, proSince and both Lemon Squeezy ids and keeps id, creation time, subject, email and name |
| Users.UpgradeToPro | convex/users.ts:56-72 | an unknown email fails with "User not found" and changes nothing; otherwise the first user with that email is patched in place and the reply is success; no other table changes |
| Users.UpgradeLookup | convex/users.ts:64-69 | after an upgrade the upgraded subject resolves to the patched user and every other subject resolves as before |
| Users.UpgradeTwiceStaysPro | convex/users.ts:64-69 | a second upgrade keeps the user Pro with the later timestamp and ids, as if only the later one happened |
| CodeExecutions.MayExecuteExactly | convex/codeExecutions.ts:30-32 | a save is allowed exactly when the user is found and Pro, or the language is "javascript"; without a user record only "javascript" passes |
| CodeExecutions.SaveExecution | convex/codeExecutions.ts:19-42 | signed out fails with "Not authenticated"; a refused language fails with "Pro subscription required to use this language"; both leave the database unchanged; otherwise one execution with the caller's subject is appended; the invariant that every saved execution was allowed is preserved |
| CodeExecutions.SyncKeepsEntitled | convex/users.ts:14-23 | syncing a user never takes away the entitlement of a saved execution |
| CodeExecutions.UpgradeKeepsEntitled | convex/users.ts:64-69 | upgrading a user never takes away the entitlement of a saved execution |
| CodeExecutions.ExecutionsOf | convex/codeExecutions.ts:64-68 | exactly the executions of the given user |
| CodeExecutions.ExecutionsOfAscending | convex/codeExecutions.ts:52-55 | filtering by user keeps creation order |
| CodeExecutions.GetUserExecutions | convex/codeExecutions.ts:51-58 | exactly the user's executions, ids strictly descending (newest first) |
| CodeExecutions.LanguagesOf | convex/codeExecutions.ts:104-106 | the language of each execution, position by position |
| CodeExecutions.LanguagesOfMembers | convex/codeExecutions.ts:104-106 | a language is listed exactly when some execution has it |
| CodeExecutions.StarredLanguages | convex/codeExecutions.ts:86-90 | the languages counted for stars are exactly the non-empty languages of the resolved snippets |
| CodeExecutions.StarredLanguagesAppend | convex/codeExecutions.ts:86-90 | one more snippet adds its language at the end unless that language is empty, so the languages follow the snippets' order |
| CodeExecutions.StarredLanguagesCounts | convex/codeExecutions.ts:86-90 | a non-empty language occurs once for each snippet written in it; the empty language never occurs |
| CodeExecutions.CountRecent | convex/codeExecutions.ts:100-102 | the recent count is at most the total; equals it exactly when every execution is within 24 hours; is zero exactly when none is |
| CodeExecutions.CountRecentCounts | convex/codeExecutions.ts:100-102 | the recent count is the number of positions holding an execution created after `now - 86400000` |
| CodeExecutions.StatsRecent | convex/codeExecutions.ts:100-102 | last24Hours is the number of the user's executions created after `now - 86400000` |
| CodeExecutions.GetUserStats | convex/codeExecutions.ts:61-127 | at most all executions are recent, and languagesCount is the number of listed languages |
| CodeExecutions.StatsCounts | convex/codeExecutions.ts:104-118 | totalExecutions is the number of the user's executions; the counts have distinct keys, list exactly the languages, sum to the total and give each language its number of runs |
| CodeExecutions.StatsLanguages | convex/codeExecutions.ts:112-120 | languages are exactly the languages the user ran, and languagesCount is the number of distinct ones |
| CodeExecutions.StatsFavorite | convex/codeExecutions.ts:112-115 | no executions gives "N/A"; otherwise the favourite has the highest count, and on a tie it is the key inserted last |
| CodeExecutions.StatsStarCounts | convex/codeExecutions.ts:70-90 | the star count of a non-empty language is the number of the user's stars on existing snippets in that language; the empty language is not counted |
| CodeExecutions.StatsMostStarred | convex/codeExecutions.ts:70-97 | nothing is counted exactly when every starred, existing snippet has an empty language, and then the answer is "N/A"; otherwise it has the highest star count, and on a tie it is the key inserted first |
| CodeExecutions.NothingStarredCounted | convex/codeExecutions.ts:86-94 | the star counter is empty exactly when no resolved snippet has a non-empty language |
| CodeExecutions.EmptyHistoryStats | convex/codeExecutions.ts:117-125 | a user with no executions and no stars gets zero counts, empty lists and "N/A" twice |
| CodeExecutions.TieBreaksDiffer | convex/codeExecutions.ts:96-97 | on one python and one javascript entry the favourite is javascript while the most counted is python |
| CountMaps.Keys | convex/codeExecutions.ts:112 | `Object.keys`: one key per entry, in entry order |
| CountMaps.Get | convex/codeExecutions.ts:106 | `acc[k] \|\| 0`: zero for a missing key, the entry's count otherwise |
| CountMaps.BumpKeys | convex/codeExecutions.ts:106 | incrementing keeps the key order, and a new key goes last |
| CountMaps.BumpGet | convex/codeExecutions.ts:106 | incrementing adds one to that key's count and leaves every other count |
| CountMaps.BumpSum | convex/codeExecutions.ts:106 | incrementing adds one to the total |
| CountMaps.BumpPositive | convex/codeExecutions.ts:106 | incrementing keeps every count positive |
| CountMaps.BumpDistinct | convex/codeExecutions.ts:106 | incrementing keeps keys distinct |
| CountMaps.TallyCounts | convex/codeExecutions.ts:104-110 | the counter has distinct keys and positive counts; its keys are exactly the elements; each count is that element's multiplicity; the counts sum to the length |
| CountMaps.DistinctKeysCard | convex/codeExecutions.ts:112-119 | with distinct keys the number of entries is the number of different keys |
| CountMaps.FirstIndex | convex/codeExecutions.ts:112 | the position of the first occurrence of a key |
| CountMaps.TallyKeysInFirstOccurrenceOrder | convex/codeExecutions.ts:112 | `Object.keys` lists languages in the order of their first execution |
| CountMaps.ReduceLaterFindsLastMax | convex/codeExecutions.ts:114 | the reduce carries the last maximum of the entries seen so far |
| CountMaps.FavoriteIsLastMax | convex/codeExecutions.ts:113-114 | the reduce over the keys returns a key of maximal count that no later key ties |
| CountMaps.Insert | convex/codeExecutions.ts:97 | one insertion step adds exactly that entry |
| CountMaps.SortByCountDesc | convex/codeExecutions.ts:97 | the sort is a permutation of the entries |
| CountMaps.InsertKeepsDescending | convex/codeExecutions.ts:97 | insertion keeps a sorted list sorted by descending count |
| CountMaps.SortIsDescending | convex/codeExecutions.ts:97 | the sorted entries are in descending count order |
| CountMaps.SortHeadIsFirstMax | convex/codeExecutions.ts:97 | the stable sort puts first a maximal entry that no earlier entry ties |
| CountMaps.MostCountedIsFirstMax | convex/codeExecutions.ts:96-97 | `[0]?.[0]` after the sort is a key of maximal count that no earlier key ties |
| Snippets.CreateSnippet | convex/snippets.ts:12-33 | signed out fails with "Not authenticated"; an unknown subject fails with "User not found"; both leave the database unchanged; otherwise one snippet with the caller's subject, the user's name and the given fields is appended, and its new id is returned |
| Snippets.DeleteSnippet | convex/snippets.ts:49-81 | the three guards fail in source order and change nothing; otherwise the snippet, every comment on it and every star on it are gone, and nothing else changes |
| Snippets.DeleteCommentsOn | convex/snippets.ts:60-68 | the loop leaves exactly the comments on other snippets |
| Snippets.DeleteStarsOn | convex/snippets.ts:70-78 | the loop leaves exactly the stars on other snippets |
| Snippets.CommentsOn | convex/snippets.ts:60-64 | exactly the comments on the snippet |
| Snippets.CommentsNotOn | convex/snippets.ts:60-68 | exactly the comments on any other snippet |
| Snippets.DropComments | convex/snippets.ts:66-68 | deleting a set of comment ids keeps exactly the comments with other ids |
| Snippets.StarsOn | convex/snippets.ts:236-240 | exactly the stars on the snippet |
| Snippets.StarsNotOn | convex/snippets.ts:70-78 | exactly the stars on any other snippet |
| Snippets.DropStars | convex/snippets.ts:76-78 | deleting a set of star ids keeps exactly the stars with other ids |
| Snippets.DropSnippet | convex/snippets.ts:80 | deleting a snippet keeps exactly the snippets with other ids |
| Snippets.CommentIds | convex/snippets.ts:66-67 | the ids of the collected comments |
| Snippets.StarIds | convex/snippets.ts:76-77 | the ids of the collected stars |
| Snippets.DropCommentsOrdered | convex/snippets.ts:66-68 | deleting comments keeps the comments table ordered |
| Snippets.DropCommentsNothing | convex/snippets.ts:66-68 | deleting no comments changes nothing |
| Snippets.DropCommentsTwice | convex/snippets.ts:66-68 | deleting one more comment is deleting the union of ids |
| Snippets.DropStarsOrdered | convex/snippets.ts:76-78 | deleting stars keeps the stars table ordered |
| Snippets.DropStarsNothing | convex/snippets.ts:76-78 | deleting no stars changes nothing |
| Snippets.DropStarsTwice | convex/snippets.ts:76-78 | deleting one more star is deleting the union of ids |
| Snippets.DropSnippetOrdered | convex/snippets.ts:80 | deleting a snippet keeps the snippets table ordered |
| Snippets.DropCommentsIsNotOn | convex/snippets.ts:60-68 | deleting the ids of the snippet's comments leaves exactly the comments on other snippets |
| Snippets.DropStarsIsNotOn | convex/snippets.ts:70-78 | deleting the ids of the snippet's stars leaves exactly the stars on other snippets |
| Snippets.CollectedCommentIds | convex/snippets.ts:60-64 | a comment's id is among the collected ids exactly when it is on the snippet |
| Snippets.CollectedStarIds | convex/snippets.ts:70-74 | a star's id is among the collected ids exactly when it is on the snippet |
| Snippets.FirstStarOn | convex/snippets.ts:98-105 | the lookup finds the first star on the snippet, and nothing exactly when the snippet has no star |
| Snippets.StarSnippet | convex/snippets.ts:91-117 | signed out fails and changes nothing; otherwise the stars table is toggled (first star on the snippet deleted, or one star by the caller appended); no other table changes |
| Snippets.DropOneStar | convex/snippets.ts:107-109 | deleting one star by id removes exactly that position |
| Snippets.StarsOnAppend | convex/snippets.ts:112-115 | an appended star adds to the snippet's stars only when it is on that snippet |
| Snippets.StarToggleCount | convex/snippets.ts:98-116 | a toggle takes a snippet's star count from 0 to 1, or down by one otherwise; other snippets keep their counts |
| Snippets.StarToggleTwice | convex/snippets.ts:98-116 | starring an unstarred snippet and toggling again restores the stars table |
| Snippets.IsSnippetStarred | convex/snippets.ts:211-226 | signed out is false; signed in is true exactly when some star is on the snippet |
| Snippets.StarredForEveryone | convex/snippets.ts:215-225 | as written, every signed-in caller gets the same answer |
| Snippets.ToggleKeepsOneStarPerSnippet | convex/snippets.ts:91-116 | when no snippet has two stars, a toggle keeps it that way |
| Snippets.DeleteKeepsOneStarPerSnippet | convex/snippets.ts:70-78 | when no snippet has two stars, deleting a snippet's stars keeps it that way |
| Snippets.StarToggleFlips | convex/snippets.ts:91-116 | on a snippet with at most one star, a toggle flips what isSnippetStarred reports |
| Snippets.StarsOnEmpty | convex/snippets.ts:236-242 | no star on the snippet exactly when the filtered list is empty |
| Snippets.GetSnippetStarCount | convex/snippets.ts:235-243 | the count is the number of stars on the snippet, so at most the number of stars and zero exactly when none is on it |
| Snippets.GetStarredSnippets | convex/snippets.ts:249-262 | signed out gives []; otherwise only existing snippets the caller starred, all of them, and at most one per star |
| Snippets.AddComment | convex/snippets.ts:128-145 | signed out or an unknown subject fails and changes nothing; otherwise one comment with the caller's subject, the user's name and the content is appended, and its id is returned |
| Snippets.DeleteComment | convex/snippets.ts:153-165 | signed out, a missing comment or another author's comment fails and changes nothing; otherwise exactly that comment is removed |
| Snippets.DeleteCommentKeepsOthers | convex/snippets.ts:163 | after the delete every other comment remains and the deleted id no longer resolves |
| Snippets.GetSnippets | convex/snippets.ts:170-175 | every snippet once, ids strictly descending |
| Snippets.GetSnippetById | convex/snippets.ts:179-187 | the snippet with that id, or "Snippet not found" exactly when none has it |
| Snippets.GetComments | convex/snippets.ts:191-203 | exactly the comments on the snippet, ids strictly descending |
| Snippets.CommentsOnAscending | convex/snippets.ts:194-199 | filtering by snippet keeps creation order |
| EditorStore.LeadingSpaces | src/store/useCodeEditorStore.ts:152 | the length of the whitespace prefix, which stops before a non-whitespace character |
| EditorStore.TrailingSpaces | src/store/useCodeEditorStore.ts:152 | the length of the whitespace suffix, which stops after a non-whitespace character |
| EditorStore.Trim | src/store/useCodeEditorStore.ts:152 | `trim()`: the slice after the leading whitespace; neither end is whitespace; only whitespace follows it |
| EditorStore.TrimIdempotent | src/store/useCodeEditorStore.ts:152 | trimming twice is trimming once |
| EditorStore.ToNumber | src/store/useCodeEditorStore.ts:27 | `Number(s)`: blank gives 0; a decimal digit string gives its value; an unmodelled form keeps its text |
| EditorStore.NatToString | src/store/useCodeEditorStore.ts:59 | a non-empty digit string whose value is the number |
| EditorStore.IntToString | src/store/useCodeEditorStore.ts:59 | `toString()` of an integer is never empty |
| EditorStore.NumberOfToString | src/store/useCodeEditorStore.ts:22-27 | `Number(n.toString())` gives n back for every integer |
| EditorStore.CodeKey | src/store/useCodeEditorStore.ts:46 | a per-language code key never collides with the three setting keys |
| EditorStore.ItemOr | src/store/useCodeEditorStore.ts:20-22 | `getItem(k) \|\| d`: the stored value when present and non-empty, the default otherwise |
| EditorStore.InitialSettings | src/store/useCodeEditorStore.ts:6-29 | the defaults on the server; otherwise each stored setting or its default, and the font size through `Number` |
| EditorStore.EditorText | src/store/useCodeEditorStore.ts:46-47 | the saved code for the language when non-empty, otherwise the editor keeps its text |
| EditorStore.SettingsSurviveReload | src/store/useCodeEditorStore.ts:20-70 | after setLanguage, setTheme or setFontSize a reload restores the value set, except that an empty language or theme falls back to its default |
| EditorStore.CodeSurvivesLanguageRoundTrip | src/store/useCodeEditorStore.ts:45-68 | code typed in one language survives a switch to another language and back, once the editor is mounted |
| EditorStore.FailureText | src/store/useCodeEditorStore.ts:123 | `stderr \|\| output`: stderr when non-empty, otherwise output |
| EditorStore.Classify | src/store/useCodeEditorStore.ts:107-168 | the result keeps the code; there is no error exactly when the reply arrived and passed every check; the output is the trimmed run output on success and empty on error; a throw gives "Error running code"; with no message and a compile that passed, a failed run reports its `stderr` or `output`, and a missing run gives "Error running code" |
| EditorStore.MessageWins | src/store/useCodeEditorStore.ts:112-115 | a non-empty API message is the error, whatever the compile and run phases say |
| EditorStore.CompileFailureIgnoresRun | src/store/useCodeEditorStore.ts:122-133 | a failed compile phase decides the error, whatever the run phase says |
| EditorStore.SuccessOutputTrimmed | src/store/useCodeEditorStore.ts:149-159 | a successful run's output has no surrounding whitespace |
| EditorStore.Dispatched | src/store/useCodeEditorStore.ts:94-168 | an unconfigured language gives "Error running code" with no output; otherwise the classified reply |
| EditorStore.LocalStorage.constructor | src/store/useCodeEditorStore.ts:20-22 | the storage holds the given items |
| EditorStore.Store.constructor | src/store/useCodeEditorStore.ts:32-41 | the initial settings, empty output, not running, no error, no editor, no result |
| EditorStore.Store.GetCode | src/store/useCodeEditorStore.ts:43 | the editor's text, or "" without an editor |
| EditorStore.Store.SetEditor | src/store/useCodeEditorStore.ts:45-51 | the editor is set, holding the saved code for the current language if any; nothing else changes |
| EditorStore.Store.SetTheme | src/store/useCodeEditorStore.ts:53-56 | the theme is stored and set; nothing else changes |
| EditorStore.Store.SetFontSize | src/store/useCodeEditorStore.ts:58-61 | the font size is stored as its string and set; nothing else changes |
| EditorStore.Store.SetLanguage | src/store/useCodeEditorStore.ts:63-77 | non-empty current code is saved under the old language; the new language is stored and set; output and error are cleared; the editor is untouched |
| EditorStore.Store.StartRun | src/store/useCodeEditorStore.ts:84-105 | empty code only sets "Please enter some code to run."; an unconfigured language ends the run at once with "Error running code"; otherwise the store is running with no error and no output, and the request for the current language and code is in flight together with that code; settings and editor never change |
| EditorStore.Store.FinishRun | src/store/useCodeEditorStore.ts:107-171 | the result is the reply classified for the code captured at the start, whatever the editor holds now; the error follows it, the output follows it on success and is left alone on error, and running ends false; settings and editor never change |
| EditorStore.Store.RunCode | src/store/useCodeEditorStore.ts:84-173 | a whole run with no other call during the await: empty code only sets "Please enter some code to run." and sends nothing; otherwise the configured runtime is requested, the result is the dispatched classification, error and output follow it, and running ends false; settings and editor never change |
| CodeBlock.Split | src/app/profile/_components/CodeBlock.tsx:14 | `split("\n")` gives at least one piece, none containing a line feed |
| CodeBlock.JoinSplit | src/app/profile/_components/CodeBlock.tsx:14-15 | joining the split pieces gives the code back |
| CodeBlock.SplitJoin | src/app/profile/_components/CodeBlock.tsx:14-15 | splitting a join of line-feed-free pieces gives the pieces back |
| CodeBlock.Lines | src/app/profile/_components/CodeBlock.tsx:14 | the code's lines, at least one, which join back to the code |
| CodeBlock.DisplayCode | src/app/profile/_components/CodeBlock.tsx:15 | expanded shows the whole code; collapsed shows a prefix of the code whose lines are exactly the first min(6, n) lines |
| CodeBlock.ShortCodeShownWhole | src/app/profile/_components/CodeBlock.tsx:14-32 | without the toggle the whole code is shown either way; with it, the collapsed view is strictly shorter |
| CodeBlock.CodeBlockView.constructor | src/app/profile/_components/CodeBlock.tsx:13 | a block starts collapsed |
| CodeBlock.CodeBlockView.Shown | src/app/profile/_components/CodeBlock.tsx:15 | the rendered text is a prefix of the code, the whole code when expanded |
| CodeBlock.CodeBlockView.Toggle | src/app/profile/_components/CodeBlock.tsx:34 | the click flips isExpanded |

## Left out

- The HTTP webhook router and the Lemon Squeezy signature check are not part of this model. Nor are the middleware, layouts, hooks and styling. The model covers only the mutations and queries they call.
- JSX rendering, syntax highlighting and `language.toLowerCase()` draw nothing the model can state.
- The network request to Piston, its JSON encoding, `Promise.all` and `console.log` are effects. The reply is a parameter (`Fetched`).
- Convex indexes are modelled as filters over insertion order. `first()` returns the first match in that order.
- Argument validators and `v.id` table typing are outside the model. Ids are plain numbers drawn from one counter, and the model does not check which table an id belongs to.
- Object key order in JavaScript puts integer-like keys first. A language named like an integer would be listed out of insertion order. The counters keep insertion order for every key, and a key such as `__proto__`, or a name every object inherits such as `constructor` or `toString`, is treated like any other. In JavaScript `acc[k] || 0` reads the inherited value for those names, so their counts would not be numbers.
- EditorStore.ToNumber: models only blank text, decimal digits and a sign. Any other form (decimals, exponents, hex, `NaN`, `Infinity`) is kept as unparsed text. `-0` reads as the integer 0, because the model has no negative zero.
- EditorStore.Store.SetFontSize: takes the font size as an integer. JavaScript also allows a fractional number, whose `toString` form the model does not produce.
- The `amount` argument of `upgradeToPro` is validated but never used, so the model omits it.
- `getExecutionResult` is a one-line read of the store's field. It has no member of its own.
- Edits the user makes in the Monaco editor are not events of the model. The editor's text is a field that `SetEditor` sets.
- The Piston phase fields `stdout`, `stderr` and `output` are taken to be strings in a parsed reply. A reply whose fields have other JSON types is outside the model.
- Snippets.StarToggleCount: states how star counts change, rather than the exact resulting sequence. The exact sequence is `Snippets.StarSnippet`'s contract.
