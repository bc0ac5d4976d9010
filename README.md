# go-carpet coverage painters in Dafny

go-carpet shows the test coverage of Go source files in the terminal. It runs
`go test -coverprofile`, reads the profile, and prints each covered file with
colour codes around the code blocks: green for blocks that ran, red for blocks
that never ran. This project models the logic at the core of the tool:

- **Byte-offset painter** (`go-carpet.go`, module `Carpet`). Given the bytes of
  a file and the coverage boundaries of its profile, it prints a yellow header
  with a `~` underline. Then it walks the boundaries with a cursor, writing the
  bytes before each boundary and a colour code for it, then the tail and a
  newline. Also modelled: how a profile's file name resolves to a path (a
  leading `_` or `$GOPATH/src/`), the loop over the files of a profile, and
  the collection of the directories that hold `_test.go` files.
- **Line/column painter** (`go-cover-cli.go`, module `CoverCli`). The blocks
  of a profile become begin and end markers grouped by line. Each line's
  markers are sorted by column with `sort.Sort` over `MarkerList`. Each line
  is then printed with a colour code spliced in after its first `col - 1`
  runes (columns count from 1).
- **String-slice helpers** (`utils.go`, module `Utils`): any element contained
  in a string, any element a prefix of a string, and dropping empty strings.

Module `Tokens` holds what both painters share. A colour code is an abstract
token (`Green`, `Red`, `Reset`, `Yellow`, `BlackHigh`); the escape bytes behind
it belong to a terminal library. The output is a sequence of text chunks and
colour codes. `Strip` deletes the codes and `Codes` keeps only them, so a
painter's central statement is a round trip: stripping the codes gives back
the source text.

The byte painter writes to an `io.Writer`. The model is a `Writer` class whose
`written` field grows with each `Write`. The line painter prints one line per
`fmt.Println`; `CoverCli.PrintFile` returns those lines in order. A Go slice
out of range panics. So the painters require every offset or column to lie in
the text. For both painters this is stricter than Go's own bound check, which
compares a slice's upper bound with the capacity of the slice rather than its
length; see the `CoverCli.MarkersFit` and `Carpet.InFile` lines under
"## Left out".

## Model

| member | source | states |
|---|---|---|
| Carpet.HeaderUnderline | go-carpet.go:85-87 | the header's text is the file name, a newline, exactly as many `~` as the name has bytes, and a newline; its codes are yellow, reset, black+h, reset |
| Carpet.WriteStep | go-carpet.go:92-104 | one boundary appends the gap bytes, only when the offset is past the cursor, then its colour code, and nothing else |
| Carpet.WriteFileCover | go-carpet.go:86-109 | writes the header, then the walk over all boundaries, the tail and one newline, in that order, after what was already written |
| Carpet.WriteTail | go-carpet.go:106-109 | appends the bytes after the cursor only when some are left, then one newline, after what was already written |
| Carpet.BodyWithoutBoundaries | go-carpet.go:90-109 | with no boundaries the body's text is the file followed by one newline, with no colour code |
| Carpet.BodyCodes | go-carpet.go:91-105 | with counts that are not negative there is exactly one code per boundary, in boundary order: green for a start with count > 0, red for a start with count 0, reset for an end |
| Carpet.MarkIsColorOf | go-carpet.go:95-102 | for a count that is not negative the switch writes exactly the boundary's one colour code; a start with a negative count writes none; an end always writes reset |
| Carpet.WalkedCodes | go-carpet.go:91-105 | after k boundaries, the codes written are those of the first k boundaries, in order |
| Carpet.BodyChunksNonEmpty | go-carpet.go:92-94 | every text chunk of the body is non-empty: nothing is written for a zero-length gap |
| Carpet.WalkedChunksNonEmpty | go-carpet.go:92-94 | every text chunk written during the walk is non-empty |
| Carpet.StepText | go-carpet.go:92-104 | when the offset is not behind the cursor, one step's text is exactly the bytes from the cursor to the offset |
| Carpet.WalkedText | go-carpet.go:90-105 | with ascending offsets, the text after k boundaries is the file up to the cursor |
| Carpet.BodyRoundTrip | go-carpet.go:90-109 | with ascending offsets within the file, deleting the codes from the body gives the file followed by one newline |
| Carpet.BodyEndsWithNewline | go-carpet.go:106-109 | the body always ends with the newline chunk |
| Carpet.BacktrackRepeatsBytes | go-carpet.go:90-108 | when an offset goes back, the cursor follows it and bytes are written twice (file `ab`, offsets 2 then 1, text `abb` and a newline) |
| Carpet.TrimLeftUnderscores | go-carpet.go:70 | the result is a suffix of the input, the removed prefix is all `_`, and the result does not start with `_` |
| Carpet.ResolveUnderscoreName | go-carpet.go:68-70 | a name starting with `_` resolves to the name with every leading underscore removed |
| Carpet.ResolveGopathName | go-carpet.go:71-74 | any other name resolves to GOPATH, then `/src/`, then the name |
| Carpet.WriteProfile | go-carpet.go:67-109 | one file of a profile: the "is not exists" message for a missing file, else the header and the painted body |
| Carpet.FileReportText | go-carpet.go:75-109 | a missing file contributes only its message, with no code; an existing file with ascending offsets contributes text name, newline, underline, newline, file bytes, newline |
| Carpet.PrintCoverForDir | go-carpet.go:66-110 | the output grows by each file's contribution, in profile order |
| Carpet.CollectTestDirs | go-carpet.go:27-35 | the collected set is exactly the directories of the walked paths ending in `_test.go` |
| Carpet.PrefixEach | go-carpet.go:37-41 | one entry per directory, each `./` followed by a directory of the set, every directory present, no entry twice |
| Carpet.GetDirsWithTests | go-carpet.go:26-42 | as many entries as directories with tests, each `./` plus such a directory, all of them present, none twice; with no roots the result is empty |
| Carpet.DirsOfMembers | go-carpet.go:29-34 | a directory is collected from one walk exactly when some walked path in it ends in `_test.go` |
| Carpet.TestDirsMembers | go-carpet.go:28-35 | a directory is collected exactly when some walk of some root holds a test file in it |
| Carpet.SameRootTwice | go-carpet.go:27-41 | walking a root a second time collects no new directory, so a root passed twice yields one entry per directory |
| CoverCli.SortMarkers | go-cover-cli.go:93 | afterwards no marker is Less than one before it, and the markers are a permutation of those before |
| CoverCli.InsertMarker | go-cover-cli.go:42-44 | swapping neighbours that are out of Less order extends the sorted prefix by one marker, keeps the markers, and leaves the markers after the prefix where they were |
| CoverCli.LineMarkersMembers | go-cover-cli.go:74-84 | a marker is on a line's list exactly when some block begins on the line (as begin marker with its column and count) or ends on it (as end marker with its column) |
| CoverCli.LineMarkersOccupied | go-cover-cli.go:73-84 | a line has a non-empty list exactly when some block begins or ends on it |
| CoverCli.LineMarkersCount | go-cover-cli.go:74-84 | a line's list holds one marker per block beginning on it plus one per block ending on it |
| CoverCli.TwoMarkersPerBlock | go-cover-cli.go:74-84 | over lines naming each start and end line once, the lists hold exactly two markers per block |
| CoverCli.OnLinesCount | go-cover-cli.go:75-83 | one block puts one marker on each occurrence of its start line and one on each occurrence of its end line |
| CoverCli.AddBlockGroups | go-cover-cli.go:75-83 | one turn of the grouping loop keeps the map equal to the grouping of the blocks seen so far |
| CoverCli.GroupByLine | go-cover-cli.go:73-84 | a line is a key exactly when its list is non-empty, and the entry is the list of that line's markers in block order |
| CoverCli.ChunksText | go-cover-cli.go:99-114 | after k markers, the text written is the line up to curCol |
| CoverCli.ChunksCodes | go-cover-cli.go:99-114 | after k markers, the codes written are those of the first k markers, in order |
| CoverCli.SpliceRoundTrip | go-cover-cli.go:95-119 | with sorted markers whose columns lie in the line, deleting the codes from the printed line gives back the line |
| CoverCli.SpliceCodes | go-cover-cli.go:99-111 | one code per marker in sorted order: green for a begin with count > 0, red for any other begin, reset for an end |
| CoverCli.SpliceCodePosition | go-cover-cli.go:100-113 | the code of marker i comes right after the first `col - 1` runes of the line |
| CoverCli.ChunksPrefix | go-cover-cli.go:99-114 | what the loop has written after fewer markers is a prefix of what it writes after more |
| CoverCli.PaintLine | go-cover-cli.go:95-119 | the printed line is the splice of the sorted markers, its text is the line, and its codes are one per marker in order |
| CoverCli.PaintMarkedLine | go-cover-cli.go:92-119 | a line with markers is printed as the splice of one sorted permutation of its markers, and its text is kept |
| CoverCli.SortedFit | go-cover-cli.go:93 | sorting keeps every marker, so the sorted markers still lie in the line |
| CoverCli.PrintFile | go-cover-cli.go:91-123 | exactly one printed line per line of the file; each keeps its text; a line with no marker is unchanged; a line with markers is spliced with one sorted permutation of them |
| Utils.IsSliceInString | utils.go:6-13 | true exactly when some element of the slice occurs in the string |
| Utils.IsSliceInStringPrefix | utils.go:16-23 | true exactly when some element of the slice is a prefix of the string |
| Utils.PrefixMatchIsSubstringMatch | utils.go:6-23 | whenever some element is a prefix, some element is contained |
| Utils.IsSliceInStringExamples | utils_test.go:11-30 | the four table cases: two matches, no match, empty slice false |
| Utils.IsSliceInStringPrefixExamples | utils_test.go:47-66 | the four table cases: no prefix, `vendor`, `Godeps`, empty slice false |
| Utils.GrepEmptyStringSlice | utils.go:26-33 | the result is the non-empty items in their original order, and none of them is empty |
| Utils.NonEmptyAppend | utils.go:27-31 | filtering a concatenation is the concatenation of the filtered parts |
| Utils.NonEmptyKeepsExactlyNonEmpty | utils.go:26-33 | exactly the non-empty items survive, each as often as it occurs |
| Utils.NonEmptyIdempotent | utils.go:26-33 | filtering twice is filtering once, and the result is never longer than the input |

## Left out

- Running `go test` and `go env`, the temporary cover file, `cover.ParseProfiles` and `fileProfile.Boundaries`. These are process I/O and a foreign library: boundaries and blocks are inputs.
- `readFile` and `readFileByLines`: a file's bytes or lines are inputs; a read error (`log.Fatal`) is not modelled.
- `os.Stat` and `os.Getenv("GOPATH")`: the existing files are a map from path to contents, and GOPATH is a parameter.
- `filepath.Walk` and `filepath.Dir`: the paths each walk visits, and the function naming a path's directory, are parameters.
- `ast.go`, `mod.go`, the terminal files, `main`'s flag handling and the usage text are not part of this model.
- The escape bytes of `ansi.ColorCode`: colours are abstract tokens.
- The `Norm` and `Index` fields of a cover boundary: the painter never reads them.
- CoverCli.SortMarkers: models `sort.Sort` by an insertion sort. Only what `sort.Sort` promises is relied on: the markers end sorted by column and are a permutation. So `PrintFile` is stated for any such order; markers on the same column may come in any order.
- CoverCli.PrintFile: cover profiles count columns in bytes, while go-cover-cli.go uses them as rune indexes; a line is modelled as its runes, and invalid UTF-8 replaced by U+FFFD is not modelled.
- CoverCli.MarkersFit: asks every column to lie in `1 .. len(runes) + 1`. Go would also accept a slice bound up to the capacity of the rune slice, which the runtime may round up; that case is not modelled.
- Carpet.InFile: asks every boundary offset to lie in `0 .. len(fileBytes)`. Go checks the upper bound of a `[]byte` slice against its capacity, and `ioutil.ReadAll` may return a slice with spare capacity, so an offset in `(len, cap]` would not panic. `cover.Boundaries` only yields offsets inside the file it was given, so that case does not arise in the tool and is not modelled.
- Carpet.WriteProfile: writes the "File '…' is not exists" message to the same `Writer` as the painted files. go-carpet.go:76 prints it with `fmt.Printf` to standard output, not to the `stdOut` writer passed in (go-carpet.go:55). The two streams are the same standard output because `main` passes the writer of `getColorWriter`: `os.Stdout` itself outside Windows (terminal_posix.go:11-13, terminal_unix.go:10-12), and on Windows a colour-translating wrapper over standard output (terminal_windows.go:9-11). Separate streams, and the order in which the wrapper and `fmt.Printf` reach the console, are not modelled.
- Carpet.GetDirsWithTests: the order of Go's map iteration is unspecified, so the model picks the directories in any order and states only which entries there are.
- The options listed in doc.go:15-22 (`-256colors` shades, `-func` function filter, `-summary`, `-file`, `-include-vendor`, `-args`) are not implemented in go-carpet.go as modelled here, so they are not part of this model; the model follows the code. Ordering the boundaries is the job of `cover.Boundaries`, left out above.

## Notes

- go-carpet_test.go:25-28 expects a non-empty list from `getDirsWithTests()` with no roots. The code walks nothing and returns an empty list; the last `ensures` of `Carpet.GetDirsWithTests` states what the code does. `main` passes `"."` when no directory is given (go-carpet.go:131-135), so the tool itself never calls it without roots.
- `ColorOf` in `Carpet` is only the colour of a boundary with a count that is not negative. For a start boundary with a negative count the Go `switch` has no matching case and writes no code; `Carpet.Mark` writes nothing there too, and `Carpet.MarkIsColorOf` relates the two.
