# ETL staging pipeline, modelled in Dafny

This project models the extract/transform staging core of a small batch ETL
job (`etl_script.py`). The job downloads a directory of files and routes each
file to a reader by its suffix. The readers are a CSV reader, a JSON-lines
reader and an XML reader that flattens the tree. The job concatenates the
records of all files and converts two fields (`height` from inches to metres,
`weight` from pounds to kilograms). A non-empty batch is then written to a
flat file, that file is uploaded, and the batch is loaded into a database
table. A failure of the table load is caught and only reported.

Modules, one per component:

- `Fallible` (`fallible.dfy`): `Option` and `Result`. `:-` stands for an
  exception that propagates.
- `Records` (`records.dfy`): a record is a Python `dict`. It is modelled as
  an association list with distinct keys (`Record`). `Put` is `d[k] = v`
  and `FromPairs` is a dict comprehension.
- `XmlFlatten` (`xml_flatten.dfy`): an already-parsed element tree, and the
  flattening done by `extract_xml`.
- `Errors` (`errors.dfy`): the exceptions that end a run.
- `Extract` (`extract.dfy`): suffix dispatch (`FormatOf`, `ReadFile`) and
  `extract_files`. `ExtractAll` is the recursive definition and
  `ExtractFiles` is the source's loop, proved equal to it.
- `Transformation` (`transform.dfy`): `transform`, field by field.
  `Transform` is the definition and `TransformRecords` is the loop.
- `Pipeline` (`pipeline.dfy`): the tail of the main program and
  `load_to_rds`.

Everything the code cannot see is a parameter:

- the readers (`Readers`: pandas CSV, pandas JSON lines, `ET.parse`), each
  returning `None` where the library raises;
- the text-to-number parse of Python's `float(...)`, a
  `string -> Option<real>`;
- the three sinks (`Sinks`: `to_csv`, the object-store upload, `to_sql`),
  each saying whether the call returned or raised.

Numbers are exact reals, so the multipliers are exactly 0.0254 and 0.453592.

## Model

| member | source | states |
|---|---|---|
| Records.Put | etl_script.py:72 | Dict assignment: the assigned key then maps to the new value and every other key keeps its value. A key already present keeps its position and a new key is appended at the end. |
| Records.FromPairsKeys | etl_script.py:72 | A dict comprehension has a key exactly when some pair has it. |
| Records.FromPairsLookup | etl_script.py:72 | A key that appears more than once in a comprehension takes the value of its LAST occurrence. |
| Records.FromPairsDistinct | etl_script.py:72 | When no key repeats, the comprehension returns exactly the pairs, in order. |
| Records.FromPairsOrder | etl_script.py:72 | A comprehension's keys come in the order of their first occurrence among the pairs. A key given again later takes the new value but keeps its first place. |
| Records.FromPairsRepeatExample | etl_script.py:72 | `{a: 1, b: 2, a: 3}` is `{a: 3, b: 2}`. |
| XmlFlatten.ExtractXmlFields | etl_script.py:71-72 | `extract_xml` as a whole: one record per immediate child of the root, in document order. Record `i`'s fields are the tags of child `i`'s own children, in order of first occurrence (both directions of membership). Each field holds the text of the last grandchild with that tag. |
| XmlFlatten.RecordOfOrder | etl_script.py:72 | A child's record lists its tags in order of first occurrence, so a repeated tag keeps its first column. |
| XmlFlatten.RecordOfKeys | etl_script.py:72 | A child's record has a field exactly for the tags of that child's own children. |
| XmlFlatten.RecordOfValues | etl_script.py:72 | A field's value is the text of the last grandchild with that tag. A grandchild without text gives `Null`. |
| XmlFlatten.RecordOfDistinctTags | etl_script.py:72 | With distinct tags, the record lists every grandchild as tag to text, in document order. |
| XmlFlatten.ExtractXmlIgnoresDepth | etl_script.py:71-72 | Attributes and nesting below the grandchildren do not change the records. |
| XmlFlatten.ExtractXmlExample | etl_script.py:72 | `<root><rec><a>1</a><b>2</b></rec></root>` gives the single record `{a: "1", b: "2"}`. |
| XmlFlatten.ExtractXmlRepeatExample | etl_script.py:72 | `<root><rec><a>1</a><b>2</b><a>3</a></rec></root>` gives the single record `{a: "3", b: "2"}`. |
| Extract.FormatOfSuffix | etl_script.py:80-85 | A path goes to the CSV, JSON-lines or XML reader exactly when it ends, case-sensitively, in `.csv`, `.json` or `.xml`. It is unrecognized exactly when it ends in none of them, and no path ends in two. |
| Extract.UnrecognizedExamples | etl_script.py:80-85 | `data.txt` and `data.CSV` are unrecognized. |
| Extract.ExtractDropsUnrecognized | etl_script.py:79-85 | A file ending in none of the three suffixes can be removed from any place in the listing without changing the records or the error, whatever the readers would do with it. |
| Extract.ExtractErrorIsRead | etl_script.py:79-85 | Extraction fails only with a read error, and that error names one of the listed files. |
| Extract.ExtractAppend | etl_script.py:78-86 | Extracting two file lists one after the other equals extracting their concatenation: records are concatenated and the first error wins. |
| Extract.ExtractIsConcatenation | etl_script.py:78-86 | Extraction succeeds exactly when every file's reader returns. The result is then the per-file outputs concatenated in iteration order, and its length is the sum of theirs. |
| Extract.ExtractFirstFailure | etl_script.py:79-85 | Extraction fails with `e` exactly when some file raises `e` and every earlier file was read. No partial batch is returned. |
| Extract.ExtractSkipsUnrecognized | etl_script.py:79-85 | Removing the unrecognized files changes neither the records nor the error. |
| Extract.ExtractFiles | etl_script.py:76-86 | The source's loop, extending the combined list file by file, computes the same result as `ExtractAll`. |
| Transformation.ConvertFields | etl_script.py:94-101 | A converted record keeps the field names and their order. Each field's new value is the per-field conversion of its old value. |
| Transformation.ConvertFieldsSucceeds | etl_script.py:95-101 | A record converts exactly when every `height`/`weight` field holds a number. |
| Transformation.ConvertFieldsFailsAt | etl_script.py:95-99 | A failed record conversion reports the first field, in key order, that is not a number. |
| Transformation.Transform | etl_script.py:92-102 | A successful transform returns exactly one output record per input record, in the same order, each being that record transformed. |
| Transformation.TransformErrorIsNumber | etl_script.py:95-99 | A transform fails only with a number error on a `height` or `weight` field. |
| Transformation.TransformSucceeds | etl_script.py:93-102 | A batch transforms exactly when every record does. |
| Transformation.TransformFailsAt | etl_script.py:93-99 | A failed transform reports the error of the first failing record, whatever follows it. |
| Transformation.TransformKeepsKeys | etl_script.py:94-101 | Every output record has the same field names, in the same order, as its input. No field is added or dropped. |
| Transformation.TransformPassesThrough | etl_script.py:100-101 | A field named neither `height` nor `weight` keeps its value. |
| Transformation.TransformConverts | etl_script.py:96-99 | A `height` value becomes its number × 0.0254 and a `weight` value becomes its number × 0.453592. The field keeps its name and place. |
| Transformation.TransformFailsOnNonNumber | etl_script.py:96-99 | A `height` or `weight` value that is not a number makes the whole transform fail. The field is not skipped. `None` reaches here from an XML element without text. |
| Transformation.TransformIdentity | etl_script.py:100-102 | A batch whose records have neither `height` nor `weight` is returned equal to itself. |
| Transformation.TransformAppend | etl_script.py:93-102 | Records are transformed independently: transforming a concatenation succeeds exactly when both parts do, and then yields the concatenation of their results. |
| Transformation.TransformExamples | etl_script.py:96-99 | `{height: "10"}` gives `{height: 0.254}` and `{weight: "2"}` gives `{weight: 0.907184}`. |
| Transformation.TransformRecords | etl_script.py:89-104 | The source's loop, appending each transformed record, computes the same result as `Transform`. |
| Pipeline.LoadsOnlyWhenNonEmpty | etl_script.py:133-137 | A sink is called exactly when extraction and transform succeed with a non-empty batch. |
| Pipeline.ReadErrorAborts | etl_script.py:133 | A read error ends the run before any record is transformed: the outcome does not depend on the number parser. |
| Pipeline.StageErrorIsNotSink | etl_script.py:133 | Staging fails only with a read error or a number error, never with a sink's error. |
| Pipeline.MainOutcome | etl_script.py:133-137 | A run succeeds, returning the staged batch, exactly when that batch is empty or the run reaches the table. This holds whatever the table load does. It fails with the flat-file error exactly when a non-empty batch cannot be written. It fails with the upload error exactly when the written file cannot be uploaded. Any other failure is exactly the staging error. |
| Pipeline.MainTrace | etl_script.py:133-137 | A run makes at most four calls, in a fixed order. The flat-file write comes first and carries the staged batch. The upload of `final_transformed_data.csv` to `Destination/final_transformed_data.csv` comes second and only after the write returned. The `etl_table` replacement comes third and carries the same batch. The error report comes last. |
| Pipeline.MainTableCalls | etl_script.py:112-117 | The table is replaced with the staged batch exactly when the run reaches it. The error report is made exactly when that table load raises. |
| Pipeline.TableFailureSwallowed | etl_script.py:112-117 | Whatever the table sink does, the run ends the same way. The run makes the calls of a run whose table load returns. It adds one error report exactly when it reaches the table and the table load raises. |
| Pipeline.EmptyDirectory | etl_script.py:78-86 | An empty directory gives an empty batch and no load. |
| Pipeline.OnlyUnrecognizedFiles | etl_script.py:79-85 | A directory holding only unrecognized files behaves like an empty one. |

Two facts about the order of work in `etl_script.py`:

- The flat-file write and the upload come before the table load, so they
  are finished whether or not the table load fails.
- Files are read in the listing order of `glob`, which the code does not
  sort.

## Left out

- Unzipping, uploading the raw files, downloading them again and listing the
  directory (etl_script.py:33-50, 124-132) are I/O over an SDK. The model
  starts from the list of downloaded paths, given as a `seq<string>` in
  listing order. `glob` leaves out names starting with a dot; this is part
  of the listing and is not modelled.
- The pandas readers and writers (`read_csv`, `read_json(lines=True)`,
  `to_csv`, `to_sql`) and `ET.parse` are library internals. They are
  parameters of the model. Column-type inference comes from them and is not
  modelled.
- NaN: pandas gives a missing CSV or JSON cell the value NaN. `float(nan) *
  0.0254` does not raise, so a `height` or `weight` column with a gap still
  transforms, to NaN. `Value` has no NaN, so the model cannot represent such
  a run. A reader that yields `Null` for the gap makes the model's transform
  fail instead, as it does for an XML element without text.
- Python `float` parsing and IEEE rounding of `float(value) * k`: the parse is
  an abstract `string -> Option<real>` and the product is exact. For example,
  10 × 0.0254 is exactly 0.254 here, which the floating-point product need
  not be.
- Logging, timing and the module-level credentials and engine setup
  (etl_script.py:11-30) have no behaviour worth stating. The one log line the
  model keeps is the report of a failed table load (`ReportTableError`),
  because it is the only trace of that failure.
- Text of an XML element's tail, comments and processing instructions:
  `ET.parse` drops or stores them outside the fields read here.
