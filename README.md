# BiBiP car service: storage core

This project models the storage core of `CarService` in
`bibip_car_service.py`, the car dealership's file-backed store. It keeps two
stores, cars and models. Each store has two files:

- a data file (`cars.txt`, `models.txt`): one fixed-width slot per record,
  holding the record's JSON text padded with spaces to 500 characters and
  ended by a newline;
- an index file (`cars_index.txt`, `models_index.txt`): one JSON object per
  line, giving each record's key and its zero-based position in the data
  file.

The model covers:

- the constructor, which creates the four files;
- `_read_index`, `_write_index` and `_add_to_file`;
- `add_model` and `add_car`.

The service is the class `BibipCarService.CarService`. Its four fields are
the four files:

- a data file is the sequence of slots appended to it, so the file's text is
  their concatenation (`TextFiles.Concat`);
- an index file is its text.

Methods change the files with `modifies this`. `_write_index` is a `for`
loop that empties the file and then appends one line per entry.

The index goes through JSON, which is modelled concretely in module `Json`:

- `json.dumps` with the default settings (`ensure_ascii`, separators `", "`
  and `": "`) on flat dicts of `str` and `int` values;
- the strict `json.loads` scanner on one line of such text.

Reading a file in text mode is modelled in module `TextFiles`: universal
newline translation, then `readlines`. With these in place, writing an index
and reading it back is proved to return the same entries in the same order
(`Index.ReadWriteIndex`).

How the records themselves are serialised (`json.dumps(car.dict())`,
`json.dumps(model.dict())`) is not modelled. It is given to the service as
the two functions `dumpsCar` and `dumpsModel`. All the service does with the
result is pad it into a slot.

Properties proved:

- **Append-only data files.** `add_car` adds exactly one slot at the end of
  `cars.txt`, `add_model` one at the end of `models.txt`, and nothing else
  in that file changes.
- **Consecutive zero-based positions.** The new index entry holds the number
  of entries read before it. A store whose index reads and agrees with its
  data file keeps that agreement after an add: one entry per slot, entry k
  holding position k (`Consistent`). Freshly created files are consistent.
- **Slot layout.** A slot is the record, spaces up to 500 characters, and a
  newline. A record of at most 500 characters gives exactly 501 characters.
  A longer record is kept whole, and its slot is one character longer than
  the record. When every record fits, position k is the slot at character
  offset 501·k (`PositionLocatesSlot`).
- **Key formats.**
  - `cars_index.txt` entries are `{"vin": car.vin, "position": n}`.
  - `models_index.txt` entries are `{"id": str(model.id), "position": n}`,
    with `str` of an int modelled exactly. Different ids give different keys.
  - Every entry keeps this shape after each add (`WellKeyed`).
- **Independent stores.** `add_car` leaves both models files unchanged, and
  `add_model` leaves both cars files unchanged.
- **Return values.** `add_car` and `add_model` return their argument.
- **Error paths.**
  - A missing index file reads as no entries.
  - An index with a line that is not a JSON object fails to read
    (`JsonDecodeError`).
  - In `add_car` and `add_model`, the slot has already been written when the
    read fails, while the index stays as it was.
  - `_add_to_file` reads the index first, so when the read fails it changes
    nothing.
- **Round trip.** Writing an index and reading it back gives the same entries
  in the same order (`Index.ReadWriteIndex`). This rests on
  `json.loads(json.dumps(d) + "\n") == d` (`Json.LoadsDumps`).

Two behaviours of the code are worth stating plainly:

- **Over-long records.** `str.ljust(500)` (bibip_car_service.py:46, :75)
  neither cuts nor refuses a record longer than 500 characters; its slot is
  the record followed by a newline. `Slots.Slot` states this, and
  `PositionLocatesSlot` therefore needs every slot to be 501 characters.
- **File formats.** Both the data files and the index files hold JSON text.

`add_car`'s docstring (bibip_car_service.py:60-68) is indented at the level
of the `def`, so the file does not parse as written. The model takes
lines 70-88 as the method's body, which is evidently what is meant.

## Model

| member | source | states |
|---|---|---|
| BibipCarService.CarService.constructor | bibip_car_service.py:9-18 | touching the four files keeps an existing file's contents and creates a missing one empty; the record serialisers are the ones given; a store whose two files were both missing starts consistent |
| BibipCarService.CarService.AppendSlot | bibip_car_service.py:34-35 | opening a data file for appending adds the slot after the existing ones, so the file's text grows by exactly the slot; every other file is unchanged |
| BibipCarService.CarService.WriteIndex | bibip_car_service.py:26-29 | afterwards the index file holds exactly one `json.dumps(entry) + "\n"` line per entry, in order, whatever it held before; the other three files are unchanged |
| BibipCarService.CarService.AddToFile | bibip_car_service.py:31-37 | when the index does not read, the error is returned and no file changes; otherwise the data file gains the padded slot, the index is rewritten with the entries read plus `{key: count}`, and that text reads back as those entries; when data and index name the same store, consistency under `key` is preserved |
| BibipCarService.CarService.AddModel | bibip_car_service.py:39-57 | models.txt gains exactly the model's slot, and its text grows by exactly that slot, even when the index does not read; cars files unchanged; on a read error the index is unchanged and the error is returned; otherwise the model itself is returned, the index holds the old entries plus `{"id": str(model.id), "position": count}`, and that text reads back; consistency and the entry format are preserved |
| BibipCarService.CarService.AddCar | bibip_car_service.py:70-88 | cars.txt gains exactly the car's slot, and its text grows by exactly that slot, even when the index does not read; models files unchanged; on a read error the index is unchanged and the error is returned; otherwise the car itself is returned, the index holds the old entries plus `{"vin": car.vin, "position": count}`, and that text reads back; consistency and the entry format are preserved |
| BibipCarService.CarEntry | bibip_car_service.py:81 | the entry `{"vin": car.vin, "position": position}`: exactly a `vin` string then a `position` int, distinct keys, `vin` maps to the car's vin and `position` to the position |
| BibipCarService.ModelEntry | bibip_car_service.py:52 | the entry `{"id": str(model.id), "position": position}`: exactly an `id` string then a `position` int, distinct keys, `id` maps to `str` of the id and `position` to the position |
| BibipCarService.KeyEntry | bibip_car_service.py:36 | the entry `{key: position}`: its only key is `key`, which maps to the position |
| BibipCarService.AppendEntryReadsBack | bibip_car_service.py:36-37 | rewriting an index that read as `es` with `es + [e]` gives a text that reads back as `es + [e]` |
| BibipCarService.AppendKeepsAgreement | bibip_car_service.py:81-82 | one more slot and one more entry holding the next position keep one entry per slot with entry k at position k |
| BibipCarService.AppendKeepsConsistent | bibip_car_service.py:73-85 | an add to a consistent store leaves it consistent: the new index reads and agrees with the grown data file |
| BibipCarService.AppendKeepsShaped | bibip_car_service.py:81-82 | appending an entry of the store's format keeps every entry in that format |
| BibipCarService.AppendKeepsShape | bibip_car_service.py:81-85 | an add to an index whose entries all have the store's format leaves an index that reads with all entries in that format |
| BibipCarService.AppendKeepsStore | bibip_car_service.py:75-85 | after an add whose index read succeeded, the new index text reads back as old entries plus the new one, and consistency and format are both preserved |
| BibipCarService.PositionLocatesSlot | bibip_car_service.py:75-81 | in a consistent store whose records all fitted, entry k holds position k and slot k is the text at character offset 501·k of the data file |
| BibipCarService.ModelKeyInjective | bibip_car_service.py:52 | two model ids with the same `str` are the same id, so model keys do not collide |
| Slots.LJust | bibip_car_service.py:46 | `s.ljust(w)` is w characters long, or as long as s when s is longer; it starts with s and has only spaces after it |
| Slots.Slot | bibip_car_service.py:75 | a slot is the record followed by spaces up to 500 characters and a newline: 501 characters for a record of at most 500, one more than the record otherwise; the record is its prefix, never cut |
| Slots.SlotInjective | bibip_car_service.py:75 | two records that do not end in a space and give the same slot are equal |
| Slots.SlotAtOffset | bibip_car_service.py:35 | a data file of 501-character slots is 501·n characters long and slot p is its text at offset 501·p |
| TextFiles.Concat | bibip_car_service.py:34-35 | the text of a data file is its slots written one after the other, so the first write opens the file |
| TextFiles.ConcatAppend | bibip_car_service.py:34-35 | appending one more part to a file extends its text by exactly that part |
| TextFiles.Translate | bibip_car_service.py:23 | reading in text mode leaves no carriage return |
| TextFiles.TranslatePrefix | bibip_car_service.py:23 | text written without a carriage return reads as it was written |
| TextFiles.SplitLine | bibip_car_service.py:24 | the first line of a text is non-empty, has no newline before its end, ends in a newline when more text follows, and with the remainder gives back the text |
| TextFiles.Lines | bibip_car_service.py:24 | `readlines` gives non-empty lines that concatenate to the text, every line but the last ends in a newline, and no line holds another newline |
| TextFiles.LinesCons | bibip_car_service.py:24 | a newline-terminated line with no other newline is read as one line, followed by the lines of the rest |
| Index.Line | bibip_car_service.py:29 | the line written for one entry, `json.dumps(entry) + "\n"`: it opens with `{` and ends with its newline |
| Index.IndexText | bibip_car_service.py:26-29 | the whole text `_write_index` leaves: each entry's line in order; empty exactly when there are no entries, otherwise starting with `{` and ending with a newline |
| Index.IndexTextAppend | bibip_car_service.py:28-29 | writing one more entry adds exactly its line at the end of the index text |
| Index.IndexTextPrefix | bibip_car_service.py:28-29 | after i + 1 loop rounds the text is the text after i rounds plus entry i's line |
| Index.IndexLines | bibip_car_service.py:28-29 | one line per entry, line i being `json.dumps(entries[i]) + "\n"` |
| Index.DecodeLines | bibip_car_service.py:24 | decoding every line gives as many entries as lines, each with distinct keys |
| Index.DecodeLinesOk | bibip_car_service.py:24 | the lines decode exactly when every line is a JSON object |
| Index.ReadIndex | bibip_car_service.py:20-24 | a missing file reads as no entries, so does an empty one; a file that reads gives one entry per line read, each with distinct keys |
| Index.NoNewlineInDumps | bibip_car_service.py:29 | `json.dumps` of an entry holds no newline and no carriage return, so each entry takes one line |
| Index.LinesOfIndexText | bibip_car_service.py:26-29 | the index text `_write_index` produces is read by `readlines` as exactly the lines written, one per entry |
| Index.TranslateIndexText | bibip_car_service.py:23-29 | text-mode reading changes nothing in an index text |
| Index.DecodeIndexLines | bibip_car_service.py:24 | decoding the lines written for entries with distinct keys gives back those entries |
| Index.ReadWriteIndex | bibip_car_service.py:20-29 | `_read_index` after `_write_index(entries)` returns `entries`, in order |
| Json.Put | bibip_car_service.py:24 | storing a key while an object is decoded: the key set grows by that key, distinct keys stay distinct, a new key goes to the end |
| Json.PutGet | bibip_car_service.py:24 | after storing k = v, looking up k gives v and every other key keeps its value (a repeated key takes the last value) |
| Json.EscapeChar | bibip_car_service.py:29 | a character's escape is printable ASCII, and it is either the character itself or at least two characters long |
| Json.IntToString | bibip_car_service.py:52 | `str` of an int is non-empty printable text that starts with `-` exactly when the int is negative |
| Json.NatToString | bibip_car_service.py:52 | the decimal digits of a natural number, non-empty, all digits, starting with `0` exactly for 0 |
| Json.Dumps | bibip_car_service.py:29 | `json.dumps` of an entry is non-empty printable ASCII starting with `{` |
| Json.Loads | bibip_car_service.py:24 | an object decoded by `json.loads` has distinct keys |
| Json.EscapeCharRoundTrip | bibip_car_service.py:29 | every character's escape reads back as that character, the rest of the text untouched |
| Json.StringRoundTrip | bibip_car_service.py:29 | an escaped string body and its closing quote read back as the string |
| Json.IntRoundTrip | bibip_car_service.py:29 | the text of an int reads back as that int when no digit follows |
| Json.ValueRoundTrip | bibip_car_service.py:29 | a dumped str or int value reads back as that value |
| Json.MembersRoundTrip | bibip_car_service.py:29 | the members of an object with distinct keys, as `json.dumps` writes them, read back in order after those already read |
| Json.LoadsDumps | bibip_car_service.py:24 | `json.loads(json.dumps(d) + "\n") == d` for a dict with distinct keys |

## Left out

- `sell_car`, `get_cars`, `get_car_info`, `update_vin`, `revert_sale`, `top_models_by_sales` (bibip_car_service.py:103-124): each only raises `NotImplementedError`, so there is no behaviour to model.
- Paths: `root_directory_path` and the joined file paths are not modelled. The four files are the service's four fields.
- Real file I/O: `open`, `touch` and `exists`, and their failures (permissions, a full disk) are not modelled. The constructor takes as parameters whether each file already existed, and what it held.
- The records' serialisation: `car.dict()`, `model.dict()` and `json.dumps` of those dicts are not modelled. They are the parameters `dumpsCar` and `dumpsModel`; `_add_to_file` takes its serialiser as a parameter.
- Exceptions from `json.dumps` on values it cannot serialise are not modelled.
- The models module's validation is not modelled; `CarFullInfo`, `Sale` and `ModelSaleStats` are not part of this model.
- Json.Loads: JSON that Python accepts but the index files never hold is rejected here. This covers floats, `true`, `false`, `null`, `NaN`, `Infinity`, nested arrays and objects, and a top-level value that is not an object.
- Json.ParseUnicodeEscape: a lone surrogate escape is rejected here. Python decodes it into a string holding the lone surrogate, which a Dafny `char` cannot represent.
- Json.NatToString: Python's limit on converting integers of more than 4300 digits to and from text is not modelled.
- Text encoding: files are sequences of characters. UTF-8 encoding and decoding, and the `UnicodeDecodeError` of a file that is not valid UTF-8, are not modelled.
- Slots.Slot: the slot width counts characters, as `ljust` does. A record with non-ASCII characters takes more than 501 bytes on disk, and that byte width is not modelled.
- Only the POSIX line separator is modelled: `"\n"` is written as is. Windows' translation of `"\n"` into `"\r\n"` on writing is not modelled; reading translates both.
- Crash consistency and concurrency are not modelled. A failure between appending a slot and rewriting the index, or two services sharing the files, is outside the model.
- Reading a data file back is not modelled: no operation of this core reads `cars.txt` or `models.txt`.
