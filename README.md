# Plane record store — a verified model

A command-line utility keeps a list of flight records (destination, flight
number, aircraft type) in a JSON file. It can add a record, display all
records as a text table, or select the records of one aircraft type. This
project models the core of that program in Dafny and proves what it does:

- **`Planes`**, the record store. A record (`Plane`) has three optional fields,
  because a record read back from the file may lack any key. `add_plane`
  appends to the list object it is given and returns that same object
  (`PlaneList`, `AddPlane`). `select_planes` is an order-preserving filter on the
  type, where a missing type reads as `''` (`SelectPlanes`).
- **`Format`**, the part of Python's `str.format` that the table uses: `str` of
  an integer and padding to a minimum width, aligned left, right or centre.
  Padding never truncates. Strings are sequences of code points, as Python
  counts them.
- **`Render`**, `display_planes` given as the list of lines it prints. An empty
  list prints one placeholder line. Otherwise it prints a border, a header, a
  border, and then a row and a border per record. The columns are 4, 30, 20
  and 15 wide. The method `DisplayPlanes` and its loop `PrintRows` are proved
  to emit exactly the lines of the function `Table`.
- **`Dispatch`**, the command logic of `main`. A parsed `Command` (`Add`,
  `Display`, `Select` or none) runs against the loaded records. The dirty flag
  is set only by `Add`, and the records are saved exactly when it is set. The
  data file is modelled by what the loader finds: `Missing`, `Unreadable` or
  `Holds(records)`. A command line without a subcommand ends in the outcome
  `NoFilename`: no load, no save, no output.

`Wrappers` holds the `Option` type used for missing fields.

Facts about the code that shape the model:
- The argument parser rejects an unknown subcommand (Tasks/Task_2.py:68-84), so
  `main` never dispatches on one.
- The subparsers are not required. With no subcommand the parsed namespace has
  `command` set to `None` and no `filename` attribute, so reading
  `args.filename` at Tasks/Task_2.py:86 raises `AttributeError` before anything
  is loaded (`NoFilename`).
- `joinpath` with an absolute file name replaces the home directory
  (Tasks/Task_2.py:86). Path resolution is not part of this model.

## Model

| member | source | states |
|---|---|---|
| `Planes.AddPlane` | Tasks/Task_2.py:16-19 | appends exactly one record, the one built from the arguments, to the end of the list; every earlier record is unchanged; returns the same list object it was given; the new list is `AddAll` of the old one with this single add |
| `Planes.AddAllSnoc` | Tasks/Task_2.py:16-19 | one more add on the store produced by earlier adds gives the store of all the adds in order, so a chain of adds (or of `add` runs, each reloading the saved file) computes `AddAll` |
| `Planes.AddAllShape` | Tasks/Task_2.py:16-19 | after a series of adds, the store holds its old records and then one record per add, each with exactly the fields passed to that add, in call order |
| `Planes.SelectPlanes` | Tasks/Task_2.py:37-41 | the result is no longer than the store; every record in it has the requested type; every record of the store with that type (a missing type counting as `''`) is in it |
| `Planes.SelectConcat` | Tasks/Task_2.py:38 | filtering a concatenation gives the filtered parts concatenated, so the filter keeps relative order |
| `Planes.SelectIsSubsequence` | Tasks/Task_2.py:38 | the result is a subsequence of the store: records in their original order, some dropped |
| `Planes.SelectCounts` | Tasks/Task_2.py:38 | each record of the requested type occurs in the result as often as in the store, and no other record occurs at all |
| `Planes.SelectIdempotent` | Tasks/Task_2.py:38-41 | selecting again by the same type returns the same list |
| `Planes.SelectEmptyIff` | Tasks/Task_2.py:38-41 | the result is empty exactly when no record has the requested type; nothing matching is an empty list, not an error |
| `Planes.UntypedSelectedByEmptyName` | Tasks/Task_2.py:38 | a record without a type is selected by the type `''` and by no other type |
| `Format.Repeat` | Tasks/Task_2.py:24 | `c * n` is n characters, all equal to `c` |
| `Format.AlignLeft` | Tasks/Task_2.py:29 | `{:<w}` gives the value first, then spaces up to width w; a longer value is kept whole |
| `Format.AlignRight` | Tasks/Task_2.py:29-30 | `{:>w}` gives spaces, then the value at the end; a longer value is kept whole |
| `Format.AlignCenter` | Tasks/Task_2.py:26 | `{:^w}` puts the value whole between spaces; the left padding is half the padding rounded down, so the right side gets the odd space |
| `Format.NatToString` | Tasks/Task_2.py:29 | the text of a number is a non-empty string of decimal digits without a leading zero, and 0 prints as `"0"` |
| `Format.NatToStringRoundTrip` | Tasks/Task_2.py:29 | reading the printed digits back gives the number |
| `Format.IntToStringRoundTrip` | Tasks/Task_2.py:29-30 | the printed flight number starts with a minus sign exactly when it is negative, then digits with no leading zero (0 prints as `"0"`), and reads back as the same integer |
| `Format.NatToStringLength` | Tasks/Task_2.py:29 | a number below 10^k prints in at most k digits |
| `Render.Border` | Tasks/Task_2.py:24 | the border is 82 characters long; character i is `+` when i is 0, 7, 40, 63 or 81 and `-` otherwise |
| `Render.Header` | Tasks/Task_2.py:26 | the header is 82 characters long with a `|` under each `+` of the border and a single space on each side of every `|` (positions 1, 6, 8, 39, 41, 62, 64, 80); its four cells (columns 2..6, 9..39, 42..62, 65..80) are the titles "No", "Пункт назначения", "Номер рейса" and "Тип самолета", each centred in its width 4, 30, 20, 15 |
| `Render.CellsLayout` | Tasks/Task_2.py:29 | four cells padded to widths 4, 30, 20 and 15 form an 82-character line, each cell in its column, a `|` under each `+` of the border and a single space on each side of every `|` |
| `Render.RowLayout` | Tasks/Task_2.py:28-30 | a row whose values fit is 82 characters long, its `|` separators line up with the border with a single space on each side, and its cells are the index right-aligned in 4, destination and number left-aligned in 30 and 20, type right-aligned in 15 |
| `Render.IndexFits` | Tasks/Task_2.py:28-29 | row numbers up to 9999 fit the 4-wide No column |
| `Render.RowAligned` | Tasks/Task_2.py:28-30 | the row of any record whose values fit, numbered 1 to 9999, is 82 characters wide with its `|` separators under the border's `+` signs |
| `Render.FramedAligned` | Tasks/Task_2.py:24-31 | for any border and header with separators at the border's `+` positions, and fewer than 10000 records whose values fit their columns, every line is 82 characters wide with its separators at those positions |
| `Render.RowsShape` | Tasks/Task_2.py:28-31 | the body has two lines per record: row k+1 for the k-th record, then a border |
| `Render.FramedShape` | Tasks/Task_2.py:23-31 | whatever the border and header lines, a non-empty list prints 3 + 2n lines: border, header, border, then row k+1 and a border for the k-th record; the empty list prints only the placeholder |
| `Render.TableShape` | Tasks/Task_2.py:22-34 | an empty list prints only the placeholder line and no border or header; n records print 3 + 2n lines: border, header, border, then a row and a border for each record, numbered from 1 |
| `Render.TableAligned` | Tasks/Task_2.py:24-31 | for fewer than 10000 records whose destination, number and type fit their columns, every line of the table is 82 characters wide with its separators under the border's `+` signs |
| `Render.PrintRows` | Tasks/Task_2.py:28-31 | the loop appends, after the lines already printed, row k+1 and the border line for the k-th record, and nothing else |
| `Render.DisplayPlanes` | Tasks/Task_2.py:22-34 | the lines printed are exactly the table of the list, in order |
| `Dispatch.Run` | Tasks/Task_2.py:68-102 | a run without a subcommand, and only such a run, stops with `NoFilename` (no load, no save, no output); otherwise, starting from the records `LoadPlanes` gives for the file, a save happens if and only if the command is `add`; `add` leaves the loaded records plus the new one at the end (`AddAll` of the loaded records with that add); `add` writes the file with exactly the records in memory, so it replaces an unreadable file; every other command leaves the loaded records unchanged and the file untouched; `display` shows all records, `select` shows the selected ones, and `add` shows nothing; the printed lines are the table of what is shown; reloading the file afterwards gives the records in memory |

## Left out

- Reading and writing JSON (`save_planes`, `load_planes`): the file is modelled by what the loader finds (`Missing`, `Unreadable`, `Holds`), and a save writes the records into it. The JSON encoding is library behaviour.
- A failed save: the program only logs it and carries on. A failure to open the file leaves it as it was; since the file is opened for writing (`"w"`, Tasks/Task_2.py:46), which empties it, a failure after the open can leave it empty or partly written. The model always saves successfully.
- Records whose fields are not a string destination, an integer number and a string type (other JSON values, a `null` field, a file holding something other than a list).
- The existence check and resolving the file name against the home directory: filesystem and path-library behaviour.
- Argument parsing: the model starts from a parsed `Command`. Malformed arguments stop the program before any of the modelled code runs.
- Logging and the run-time measurement with the wall clock: a side channel with no effect on the records or the output.
- Printing to standard output: the model returns the printed lines instead.
- Display width of Cyrillic text on a terminal: lengths are counted in code points, as Python's padding counts them.
