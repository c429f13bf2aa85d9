# Bernese file readers: a verified model

This project models the file-reading core of the LINZ `LINZ.Bernese` Python
package. The package reads the text files of the Bernese GNSS processing
software. The modelled parts are:

- **Fortran.py**: the `Format` class, a fixed-width record reader driven by a
  Fortran format such as `(I3,2X,2A18,A10,3(X,I2),14X,4I2,I4,I5)`.
  - `setFormat` upper-cases the layout, expands repeat groups `n(...)`,
    validates the layout and extracts `(count, width, converter)` descriptors.
  - `read` pads a short line and cuts it into consecutive slices, converting
    each one with `int`, `float` or `str` (stripped when `trim` is set).
  - `readiter` and `readfile` stream records with `skipErrors`, `skipBlanks`
    and `skipLines`.
- **Util.py**: `${P}`/`${U}`/`${X}` path expansion, `userfile`, and
  `campaignfile`, which reads the active campaign from `PAN/MENU.INP`.
- **ClusterFile.py** and **FixFile.py**: the cluster file and fixed-station
  file readers built on `Format.readfile`.
- **CoordFile.py**:
  - `read`: the datum line, the epoch pattern, station records keyed by name
    or 4-character code, and velocities from a derived or given `.VEL` file;
  - `compare`: several sources lined up by common key into a table of rows
    and columns.
- **Residuals.py**: the `Residuals` constructor up to its station table. This
  covers the header items, the heading line `Num Station 1`, and the table of
  numbered station lines, each split into code and name. It also covers
  `Line.code`.

The package targets Python 2:

- strings are byte strings, with ASCII whitespace, digits and case;
- integer `/` is floor division in Residuals.py, which has no
  `from __future__ import division`;
- `readline` past the end of a file returns `''`.

A file system is a map from paths to the lists of lines `readline` returns.
Environment variables are a parameter. Every exception the modelled code
raises is a constructor of `Base.Error`.

Each stateful operation is a method proved against a specification function:

- `Format` is a class whose `SetFormat` rewrites its fields;
- `Residuals` is a class whose constructor fills its attributes;
- loops are `while` loops with invariants.

The properties the source promises are lemmas about those functions.

## Model

| member | source | states |
|---|---|---|
| Fortran.Format.New | LINZ/Bernese/Fortran.py:10-19 | The constructor succeeds exactly when the layout compiles. The new object's state is the compiled layout; otherwise it raises the compile error. |
| Fortran.Format.SetFormat | LINZ/Bernese/Fortran.py:21-65 | `_format` is the upper-cased layout. An invalid layout raises `InvalidFormat` and leaves no fields. A valid one sets the fields, `_length = Σ count·width` and `_fieldcount`. A name list of the wrong length raises `FieldNameCount`; otherwise the names are `split()` of the text, or none. |
| Fortran.ExpandGroups | LINZ/Bernese/Fortran.py:26-30 | The substitution loop ends with the repeat groups expanded and one enclosing pair of parentheses stripped. |
| Fortran.Extract | LINZ/Bernese/Fortran.py:43-55 | The loop builds one descriptor per `findall` match, in order. |
| Fortran.Totals | LINZ/Bernese/Fortran.py:56-57 | Returns the line length and the number of values the layout produces. |
| FortranLayout.Compile | LINZ/Bernese/Fortran.py:21-65 | Compilation succeeds exactly when the expanded layout starts with a valid token and any names match the value count. A success holds the layout's descriptors. An invalid layout raises `InvalidFormat`, and a name count that differs from the value count raises `FieldNameCount`; both errors name the upper-cased layout. |
| FortranLayout.Expand | LINZ/Bernese/Fortran.py:26-29 | The repeated substitution passes end in a text with no repeat group left. |
| FortranLayout.ExpandFromCount | LINZ/Bernese/Fortran.py:26-29 | A pass never adds a `)`, and removes one for each group it expands, so the `while` loop terminates. |
| FortranLayout.GroupPass | LINZ/Bernese/Fortran.py:27-29 | The text `n(body)` followed by text without `(` becomes `','.join(n*[body])` in one pass. |
| FortranLayout.GroupedFields | LINZ/Bernese/Fortran.py:26-55 | A layout `(pre,n(body),post)` of well-formed tokens is valid. Its descriptors are those of `pre`, then n copies of `body`, then `post`. |
| FortranLayout.GroupedExpanded | LINZ/Bernese/Fortran.py:26-30 | Expanding `(pre,n(body),post)` and stripping the outer parentheses gives the comma-joined expanded tokens. |
| FortranLayout.TokensOfRendered | LINZ/Bernese/Fortran.py:46 | `findall` reads a comma-joined list of well-formed tokens back, token for token. |
| FortranLayout.ValidRendered | LINZ/Bernese/Fortran.py:32-41 | The validation regex accepts any layout whose first token is well formed. |
| FortranLayout.FieldsOfRendered | LINZ/Bernese/Fortran.py:43-55 | A group-free layout is valid, and its descriptors are those of its tokens in order. |
| FortranLayout.CompileRendered | LINZ/Bernese/Fortran.py:21-65 | A layout of well-formed tokens with matching field names compiles to its descriptors, their length and count, and the names. |
| Fortran.Format.Read | LINZ/Bernese/Fortran.py:67-81 | The record is the decoding of the padded line. A record has the format's names and exactly `_fieldcount` values. |
| Fortran.ReadFields | LINZ/Bernese/Fortran.py:75-80 | The nested loops yield the conversions of the value-producing slices in order, or the first conversion error. |
| Fortran.ReadRepeats | LINZ/Bernese/Fortran.py:76-80 | The inner loop for one descriptor either extends the values by its slices and advances the position by `count·width`, or raises the decoding's error. |
| Fortran.ReadDecodes | LINZ/Bernese/Fortran.py:75-80 | Reading slice by slice with the converters is the same as decoding the cells. |
| Fortran.DecodeByIs | LINZ/Bernese/Fortran.py:79-80 | Any converter that agrees with `int`, `float` and `str` on the converted kinds decodes as the converters do. |
| FortranDecode.Convert | LINZ/Bernese/Fortran.py:44-53 | A failed conversion raises `BadInteger` or `BadReal` on the slice, and a value has the type of its converter. |
| FortranDecode.ConvertValues | LINZ/Bernese/Fortran.py:44-53 | `int` succeeds exactly when `ParseInt` does, with its value. `float` succeeds exactly on a real literal after `D`→`E`, keeping the rewritten text. `str` returns the slice, stripped when `trim` is set. |
| FortranDecode.ParseIntAccepts | LINZ/Bernese/Fortran.py:50 | `int(s)` accepts exactly a stripped text of digits, or a sign then digits. Its value is the signed digit value. |
| FortranDecode.Pad | LINZ/Bernese/Fortran.py:73-74 | The padded line starts with the data and is at least `_length` long. A line already long enough is unchanged. |
| FortranDecode.PadIrrelevant | LINZ/Bernese/Fortran.py:73-74 | Padding with more spaces than needed does not change the record. |
| FortranDecode.DecodeBySlices | LINZ/Bernese/Fortran.py:75-80 | The values are the conversions of the consecutive slices. Decoding succeeds exactly when every slice converts; otherwise it raises the first slice's error. |
| FortranDecode.CellsSpan | LINZ/Bernese/Fortran.py:56 | The slices span exactly `_length` characters. |
| FortranDecode.CellsValueCount | LINZ/Bernese/Fortran.py:57 | The slices produce exactly `_fieldcount` values. |
| FortranDecode.DecodeReadsSpan | LINZ/Bernese/Fortran.py:75-80 | Decoding reads only the characters the slices cover. |
| FortranDecode.DecodeTextual | LINZ/Bernese/Fortran.py:52 | A layout of X, A and H descriptors only never fails to read. |
| FortranDecode.DecodeLineTyped | LINZ/Bernese/Fortran.py:50-53 | Each value has the type of its converter. |
| FortranDecode.Iterate | LINZ/Bernese/Fortran.py:83-98 | With `skipErrors` no error escapes. Every record yielded has the format's names and value count. |
| FortranDecode.IterateSkipping | LINZ/Bernese/Fortran.py:91-98 | With `skipErrors` the stream is exactly the decodable lines that are kept. |
| FortranDecode.IterateStrict | LINZ/Bernese/Fortran.py:94-98 | Without `skipErrors` the stream stops at the first kept line that fails. It yields the records before that line, then raises that line's error. |
| FortranDecode.IterateNonBlank | LINZ/Bernese/Fortran.py:92-93 | `skipBlanks` is the same as iterating over the non-blank lines only. |
| FortranDecode.IterateStops | LINZ/Bernese/Fortran.py:96-98 | Lines after a raised error are never read. |
| FortranDecode.IterateTyped | LINZ/Bernese/Fortran.py:83-98 | Every record yielded has the layout's value types. |
| Fortran.Format.ReadIter | LINZ/Bernese/Fortran.py:83-98 | The records collected and the error that ends the loop are `Iterate` of the lines. |
| Fortran.Format.ReadFile | LINZ/Bernese/Fortran.py:100-122 | A missing file raises `FileNotFound`. Otherwise the stream is `Iterate` of the lines after the first `skipLines`. |
| Base.Drop | LINZ/Bernese/Fortran.py:116-117 | After k `readline` calls, the rest holds the lines from index k on, or nothing. |
| Util.ExpandPathPlain | LINZ/Bernese/Util.py:10-11 | A path holding none of the three tokens is unchanged. |
| Util.ExpandPathLeadingP | LINZ/Bernese/Util.py:10-11 | A leading `${P}` becomes the value of P. |
| Util.ExpandPathOrder | LINZ/Bernese/Util.py:10-11 | The replacements run in the order P, U, X. A P value holding `${U}` therefore has that token expanded too. |
| Util.UserFile | LINZ/Bernese/Util.py:13-14 | The path is empty exactly when the user directory is unset. |
| Util.UserFileUnder | LINZ/Bernese/Util.py:13-14 | With relative names, the path starts with the user directory. |
| Util.CampaignDirOfLine | LINZ/Bernese/Util.py:21 | Every line of the form blanks, `ACTIVE_CAMPAIGN`, blanks, digits, blanks, `"dir"`, blanks, where `dir` holds no quote, is matched and yields `dir`. |
| Util.CampaignDirShape | LINZ/Bernese/Util.py:21 | Conversely, every line the pattern accepts has that form, with the captured directory. |
| Util.FirstCampaign | LINZ/Bernese/Util.py:20-24 | The index found is that of a matching line, or the end of the file. |
| Util.FirstCampaignBefore | LINZ/Bernese/Util.py:20-24 | No line before the first match matches. |
| Util.FindCampaign | LINZ/Bernese/Util.py:20-24 | The loop breaks at the first matching line. |
| Util.CampaignFile | LINZ/Bernese/Util.py:16-29 | Returns the joined campaign path, or `''` when the menu file is missing, no line matches, or the expanded directory is empty. |
| Util.CampaignFirstWins | LINZ/Bernese/Util.py:20-26 | Only the first matching line counts. The result joins its expanded directory with the names. |
| ClusterFile.LayoutCompiles | LINZ/Bernese/ClusterFile.py:9 | `Format('A16,I5','name cluster',True)` compiles to a 16-character stripped name and a 5-character integer. |
| ClusterFile.LineDecodes | LINZ/Bernese/ClusterFile.py:9-10 | A line decodes to its stripped name and its `int` cluster, or to the integer error. |
| ClusterFile.StreamRecords | LINZ/Bernese/ClusterFile.py:10 | Every record read is a name and an integer. |
| ClusterFile.GroupedEntries | LINZ/Bernese/ClusterFile.py:10-14 | The keys are exactly the names read. Each entry is `StationCluster(name[:4], name, ids)`, where `ids` are that name's clusters in file order. |
| ClusterFile.OrderNames | LINZ/Bernese/ClusterFile.py:10-14 | The names in order of first appearance are distinct and are exactly the names read. |
| ClusterFile.GroupedTotal | LINZ/Bernese/ClusterFile.py:10-14 | The lengths of the lists add up to the number of records: every record lands in exactly one list. |
| ClusterFile.FailsIsBad | LINZ/Bernese/ClusterFile.py:10 | A kept line fails exactly when its cluster columns are not an integer, and raises `BadInteger` on them. |
| ClusterFile.ClustersAbort | LINZ/Bernese/ClusterFile.py:7-15 | The first bad line after the five header lines makes `read` raise its error. With no bad line, `read` succeeds. |
| ClusterFile.Group | LINZ/Bernese/ClusterFile.py:10-14 | The loop builds the grouping of the records. |
| ClusterFile.Read | LINZ/Bernese/ClusterFile.py:7-15 | `read(f)` returns the grouped clusters of the expanded path, or raises. |
| FixFile.LayoutCompiles | LINZ/Bernese/FixFile.py:9 | `Format('A16','name',True)` compiles to one 16-character stripped name. |
| FixFile.LineDecodes | LINZ/Bernese/FixFile.py:9-10 | Every line decodes to its stripped first 16 characters. |
| FixFile.StreamRecords | LINZ/Bernese/FixFile.py:10 | The stream has one record per non-blank line, with no error. |
| FixFile.StationsOfLines | LINZ/Bernese/FixFile.py:7-12 | An existing file always reads. It yields one `Station(name[:4], name)` per non-blank line after the five header lines, in order. |
| FixFile.Collect | LINZ/Bernese/FixFile.py:10-11 | The loop appends one station per record. |
| FixFile.Read | LINZ/Bernese/FixFile.py:7-12 | `read(f)` returns the station list of the expanded path, or `FileNotFound`. |
| CoordFile.VelocityNameOf | LINZ/Bernese/CoordFile.py:58 | `.CRD` becomes `.VEL`, and `.CRD.gz` becomes `.VEL.gz`. |
| CoordFile.VelocityNameOk | LINZ/Bernese/CoordFile.py:58 | A velocity name exists exactly for names ending in `.CRD` or `.CRD.gz`. |
| CoordFile.VelocityNameCase | LINZ/Bernese/CoordFile.py:58 | Lower-case `.crd` is not rewritten; the substitution raises. |
| CoordFile.EpochOf | LINZ/Bernese/CoordFile.py:81-84 | A matched epoch has fields in the range the pattern's digit counts allow. |
| CoordFile.EpochRoundTrip | LINZ/Bernese/CoordFile.py:81-84 | An epoch written `YYYY-MM-DD HH:MM:SS`, followed by anything, is read back as its six fields. |
| CoordFile.LatestKeys | LINZ/Bernese/CoordFile.py:86-92 | The keys are exactly the keys of the station lines. |
| CoordFile.LatestLast | LINZ/Bernese/CoordFile.py:86-92 | Each key leads to the last station line that carries it. |
| CoordFile.CoordMapAt | LINZ/Bernese/CoordFile.py:86-92 | The entry under a key holds the number, the name, `name[:4]`, the coordinates and the flag of the last line with that key. It also holds the datum, the epoch, and the key's velocity or none. |
| CoordFile.CoordMapVelocity | LINZ/Bernese/CoordFile.py:88-92 | Each entry lies under its own key and carries that key's velocity. |
| CoordFile.VelocityMapAt | LINZ/Bernese/CoordFile.py:59-62 | `veldata` maps each key to the coordinates of the last velocity line with that key. |
| CoordFile.VelocityMapKeys | LINZ/Bernese/CoordFile.py:59-62 | The keys of `veldata` are exactly those of the velocity lines. |
| CoordFile.Formats | LINZ/Bernese/CoordFile.py:51-52 | The two formats compile to the datum layout and the station layout. |
| CoordFile.ReadDatum | LINZ/Bernese/CoordFile.py:79-80 | The datum line yields its datum and epoch columns. |
| CoordFile.LoadVelocities | LINZ/Bernese/CoordFile.py:59-62 | The loop over the velocity file builds `veldata`, or raises `FileNotFound`. |
| CoordFile.LoadVelocityData | LINZ/Bernese/CoordFile.py:54-65 | Returns `veldata`, or the error let out of the `try`. |
| CoordFile.Collect | LINZ/Bernese/CoordFile.py:86-92 | The station loop builds `coords`. |
| CoordFile.StreamStations | LINZ/Bernese/CoordFile.py:87 | `readiter` with `skipErrors` and `skipBlanks` raises nothing. It yields the stations of the decodable lines. |
| CoordFile.Read | LINZ/Bernese/CoordFile.py:38-98 | `read` returns `ReadCoords`. The checks run in the source's order: velocity file, coordinate file, datum epoch, date range. |
| CoordFile.ReadKeys | LINZ/Bernese/CoordFile.py:86-92 | The keys of the result are exactly those of the station lines after the datum line. |
| CoordFile.ReadWithoutVelocities | LINZ/Bernese/CoordFile.py:55 | Without velocity loading, no entry has a velocity. |
| CoordFile.ReadVelocityFailure | LINZ/Bernese/CoordFile.py:63-65 | A velocity file that cannot be named or opened makes `read` raise, unless `tryVelocities` is set. |
| CoordFile.ReadTryVelocities | LINZ/Bernese/CoordFile.py:48-65 | With `tryVelocities`, such a failure is absorbed. The result is that of a read without velocities. |
| CoordFile.ReadBadEpoch | LINZ/Bernese/CoordFile.py:81-83 | A datum epoch that does not match raises `InvalidDatumEpoch` with the epoch text and the file name. |
| CoordFile.ReadEpoch | LINZ/Bernese/CoordFile.py:79-92 | A valid epoch reads, and every entry carries that epoch and the datum line's datum. |
| CoordLines.DatumCompiles | LINZ/Bernese/CoordFile.py:51 | `Format('22X,A18,7X,A20','datum epoch',True)` compiles to the datum layout. |
| CoordLines.CoordCompiles | LINZ/Bernese/CoordFile.py:52 | `Format('I3,2X,A16,3F15.4,4X,A1','id name X Y Z flag',True)` compiles to the station layout. |
| CoordLines.DatumDecodes | LINZ/Bernese/CoordFile.py:79-80 | The datum line always decodes, to its columns 23-40 and 48-67, stripped. |
| CoordLines.CoordDecodes | LINZ/Bernese/CoordFile.py:52-87 | `crdfmt.read(l)` gives the closed form: number, name, three reals and flag, or the first conversion error. |
| CoordLines.StationLine | LINZ/Bernese/CoordFile.py:87-92 | A decoded station line gives the `int` of columns 1-3, the stripped name of columns 6-21, X, Y and Z from columns 22-66 with `D`→`E`, and the flag in column 71. |
| CoordLines.DecodedStations | LINZ/Bernese/CoordFile.py:87 | Every record the stream yields is a station record. |
| CoordLines.Stations | LINZ/Bernese/CoordFile.py:87 | There is one station per decodable non-blank line. |
| CoordCompare.CommonIs | LINZ/Bernese/CoordFile.py:122-126 | A key is in `usecodes` exactly when every source has it. |
| CoordCompare.NamedIs | LINZ/Bernese/CoordFile.py:121 | The names of `coords` are the sources' names, and each holds a source's dictionary. |
| CoordCompare.LoadSources | LINZ/Bernese/CoordFile.py:113-126 | The loop raises exactly when a source fails, with its error. Otherwise it counts every source, and `coords` and `usecodes` are the named dictionaries and their common keys. |
| CoordCompare.LoadEach | LINZ/Bernese/CoordFile.py:116-126 | The same loop, with the reads as a parameter. |
| CoordCompare.LoadSource | LINZ/Bernese/CoordFile.py:118-120 | A file name is read with `read`, and a dictionary is used as given. |
| CoordCompare.SelectCodes | LINZ/Bernese/CoordFile.py:133-141 | `usecodes` is narrowed by `codes` (a text is split first) and by the keys of `codesCoordFile`. |
| CoordCompare.SelectedWithin | LINZ/Bernese/CoordFile.py:133-141 | The filters only narrow the common keys. |
| CoordCompare.SelectedIs | LINZ/Bernese/CoordFile.py:122-141 | A key is kept exactly when every source has it and it passes both filters. |
| CoordCompare.Lon | LINZ/Bernese/CoordFile.py:154-155 | A non-negative longitude is kept. A longitude in [-360, 360) is brought into [0, 360). |
| CoordCompare.RowShape | LINZ/Bernese/CoordFile.py:149-189 | A row has one cell per column: code, lon, lat, hgt, the flags, then each source's coordinates. The seven or fourteen difference columns come only for exactly two sources. |
| CoordCompare.RowLinesUp | LINZ/Bernese/CoordFile.py:157-185 | The j-th source's flag and coordinates sit under `name_flg` and `name_X`… in the same row. |
| CoordCompare.CellsAt | LINZ/Bernese/CoordFile.py:157-161 | Cell 4+j is source j's flag. The j-th group of cells is its coordinates, then its velocities or NaN. |
| CoordCompare.ColumnsAt | LINZ/Bernese/CoordFile.py:180-185 | Column 4+j is `name_flg`. The j-th group of columns is `name_X`, `name_Y`, `name_Z`, with the velocity names when asked for. |
| CoordCompare.BuildRow | LINZ/Bernese/CoordFile.py:149-178 | The loop body builds `codedata` for one key. |
| CoordCompare.BuildRows | LINZ/Bernese/CoordFile.py:150-178 | There is one row per sorted key. |
| CoordCompare.CodeData | LINZ/Bernese/CoordFile.py:152 | `cdata` is the key's entry in each source, in sorted-name order. |
| CoordCompare.BuildColumns | LINZ/Bernese/CoordFile.py:180-189 | The columns, in order. |
| CoordCompare.BuildTable | LINZ/Bernese/CoordFile.py:146-189 | The table has the rows of the sorted keys under the columns of the sorted names. |
| CoordCompare.ComparisonOk | LINZ/Bernese/CoordFile.py:113-189 | A successful comparison read every source. The filters succeeded, and the table is that of the selected keys. |
| CoordCompare.CompareKeys | LINZ/Bernese/CoordFile.py:122-150 | A key has a row exactly when every source has it and both filters keep it. |
| CoordCompare.CompareSorted | LINZ/Bernese/CoordFile.py:147-150 | The rows come in strictly ascending key order. |
| CoordCompare.TableAt | LINZ/Bernese/CoordFile.py:148-185 | Row i starts with the i-th key, and the j-th source's cells sit under its columns. |
| CoordCompare.TableTail | LINZ/Bernese/CoordFile.py:162-189 | The difference cells and columns come last, and only for exactly two sources. |
| CoordCompare.CompareNoFiles | LINZ/Bernese/CoordFile.py:128-129 | With no sources, `compare` raises `NoFiles`. |
| CoordCompare.CompareDisjoint | LINZ/Bernese/CoordFile.py:130-131 | Two sources with no key in common make it raise `NoCommonCodes`. |
| CoordCompare.CompareNoneSelected | LINZ/Bernese/CoordFile.py:137-144 | A code list that shares nothing with the common keys makes it raise `NoCodesSelected`. |
| CoordCompare.Compare | LINZ/Bernese/CoordFile.py:100-189 | `compare` returns `Comparison`: the three errors in the source's order, then the table. |
| Text.Sorted | LINZ/Bernese/CoordFile.py:147-148 | `sorted` of a set of keys is strictly increasing and holds exactly those keys. |
| Text.SortedUnique | LINZ/Bernese/CoordFile.py:147-148 | Two strictly increasing lists with the same elements are equal, so `sorted` is determined by the set. |
| Text.StripEmptyIffBlank | LINZ/Bernese/Fortran.py:92 | `l.strip() == ''` exactly when the line is all whitespace. |
| Text.SplitJoin | LINZ/Bernese/Fortran.py:59 | `' '.join(words).split()` gives back words that contain no whitespace. |
| ResidualLines.LayoutCompiles | LINZ/Bernese/Residuals.py:42 | `Format('(I3,2X,2A18,A10,3(X,I2),14X,4I2,I4,I5)')` compiles, with the group written out three times. |
| ResidualLines.StationDecodes | LINZ/Bernese/Residuals.py:42-49 | A station line decodes exactly when its 13 slices convert, and the values are their conversions. Otherwise it raises the first failing slice's error. |
| ResidualLines.StationFieldsAre | LINZ/Bernese/Residuals.py:49 | The 13 unpacked values are the `int` of their columns, or the unstripped text columns. |
| ResidualLines.StationDecodeFails | LINZ/Bernese/Residuals.py:49 | A failing station line raises `BadInteger` on the first integer slice that `int` rejects. |
| Residuals.HeadingOf | LINZ/Bernese/Residuals.py:26 | Every line `Num`, blanks, `Station`, blanks, `1`… is a heading. |
| Residuals.HeadingShape | LINZ/Bernese/Residuals.py:26 | Conversely, every heading has that form. |
| Residuals.HeaderItem | LINZ/Bernese/Residuals.py:28-31 | A matched item and value hold no newline. |
| Residuals.ItemNone | LINZ/Bernese/Residuals.py:28 | The pattern fails exactly when no colon followed by whitespace can end the item. |
| Residuals.ItemRoundTrip | LINZ/Bernese/Residuals.py:28-31 | A line `indent item: value trail`, with no colon in the value, is read back as that item and the right-trimmed value. |
| Residuals.LastItemColonIs | LINZ/Bernese/Residuals.py:28 | The greedy item runs to the last colon followed by whitespace. |
| Residuals.HeaderFields | LINZ/Bernese/Residuals.py:17-39 | Each attribute holds the value of the last line for its item, or its initial value. |
| Residuals.ItemsDiffer | LINZ/Bernese/Residuals.py:32-39 | A line sets at most one attribute. |
| Residuals.LastValueNone | LINZ/Bernese/Residuals.py:32-39 | An attribute keeps its initial value exactly when no line names its item. |
| Residuals.LastValueLater | LINZ/Bernese/Residuals.py:32-39 | A later line for the same item overwrites an earlier one. |
| Residuals.HeadingFrom | LINZ/Bernese/Residuals.py:24-27 | The scan stops at a heading, or at the end of the file. |
| Residuals.HeadingFromBefore | LINZ/Bernese/Residuals.py:24-27 | No heading comes before the one found. |
| Residuals.WrittenScanNeverStops | LINZ/Bernese/Residuals.py:24-27 | As written, the loop never stops on a file without a heading, however many iterations it runs. |
| Residuals.WrittenScanFinds | LINZ/Bernese/Residuals.py:24-27 | Where the file has a heading, the loop as written stops at the same line. |
| Residuals.TableEnd | LINZ/Bernese/Residuals.py:45-48 | The table ends at a line `strip()` empties, or at the end of the file. |
| Residuals.TableEndBefore | LINZ/Bernese/Residuals.py:45-48 | No line before the end is blank. |
| Residuals.TableRowsAre | LINZ/Bernese/Residuals.py:45-48 | The table is a run of non-blank lines, followed by a blank line or the end of the file. |
| Residuals.FloorDiv | LINZ/Bernese/Residuals.py:50 | Python 2 integer `/`: the quotient rounded down, for either sign of the divisor. |
| Residuals.SplitOnIs | LINZ/Bernese/Residuals.py:54-55 | `split(' ', 1)` fails to unpack exactly when there is no space. Otherwise the parts joined by the first space give the text back. |
| Residuals.SplitOnOf | LINZ/Bernese/Residuals.py:54-55 | Two parts joined by a space, the first part holding none, split back into themselves. |
| Residuals.CodeParts | LINZ/Bernese/Residuals.py:10 | `code` is `code1` alone exactly when `code2` is empty. Otherwise it splits back at its colon. |
| Residuals.FromFieldsIs | LINZ/Bernese/Residuals.py:50-56 | The checks run in the source's order: a zero period, the numbering, then the two splits. The record carries the floor-divided offset, the codes before the first spaces and the stripped names. |
| Residuals.StationLineColumns | LINZ/Bernese/Residuals.py:49-56 | A station line that reads carries its number in columns 1-3. Its codes and names come from columns 6-23 and 24-41. |
| Residuals.TableOk | LINZ/Bernese/Residuals.py:45-56 | The table reads exactly when every line reads as the station of its position. The records are those lines'. |
| Residuals.TableErr | LINZ/Bernese/Residuals.py:45-56 | A failing table raises the error of its first failing line. |
| Residuals.TableKeepsError | LINZ/Bernese/Residuals.py:45-56 | Lines after a failing line are never read. |
| Residuals.StationsOk | LINZ/Bernese/Residuals.py:45-56 | The station table reads exactly when line k reads as station k+1. |
| Residuals.StationsNumbered | LINZ/Bernese/Residuals.py:52-79 | In a table that reads, record k is line k's, and its number is k+1. |
| Residuals.StationsErr | LINZ/Bernese/Residuals.py:45-56 | A failing table raises its first failing line's error. |
| Residuals.Misnumbered | LINZ/Bernese/Residuals.py:52-53 | A decoded line whose number is not its position raises `StationNumbers`. |
| Residuals.ParseHeader | LINZ/Bernese/Residuals.py:14-39 | A file that reads has a heading, with none before it. Its header holds the last value of each item above the heading. |
| Residuals.ParseTable | LINZ/Bernese/Residuals.py:40-79 | The lines of a file that reads are the station table two lines below the heading, numbered 1, 2, 3, … |
| Residuals.ParseNoHeading | LINZ/Bernese/Residuals.py:24-87 | A file without a heading raises `NotResidualFile`, where the loop as written never ends. |
| Residuals.Residuals.Init | LINZ/Bernese/Residuals.py:17-20 | The attributes start at their initial values, with no lines. |
| Residuals.Residuals.ReadHeader | LINZ/Bernese/Residuals.py:24-39 | The loop stops at the heading, or at the end of the file. The attributes are the header fold of the lines before it. |
| Residuals.Residuals.ReadTable | LINZ/Bernese/Residuals.py:42-79 | `lines` becomes the station table, or the error is raised and `lines` is unchanged. The header is untouched. |
| Residuals.Residuals.ReadRows | LINZ/Bernese/Residuals.py:45-56 | The loop over the table's lines returns the records, or the first error. |
| Residuals.Residuals.ReadStation | LINZ/Bernese/Residuals.py:49-56 | One station line is read as the table's n-th. |
| Residuals.Residuals.Open | LINZ/Bernese/Residuals.py:14-79 | Lines 14-56 and 79 of `Residuals(filename)` succeed exactly when `Parse` does, and leave the object in `Parse`'s state. Otherwise they raise `Parse`'s error. Lines 59-77 are not covered. |

## Left out

- gzip: `readfile` and `CoordFile.read` open `.gz` names through `gzip`
  (Fortran.py:111-113, CoordFile.py:69-71). Files are plain line lists, so
  compression is not modelled.
- Closing files (`finally: f.close()`) has no observable effect on a list of
  lines.
- F values are kept as text: `float()` is modelled as its acceptance test on
  the stripped slice with `D`→`E`. The value is the rewritten slice, not a
  binary double, since floating point is out of scope.
- FortranDecode.ParseInt: the I-field grammar is blanks, an optional sign,
  digits, then blanks. Python 2's `int()` also skips whitespace between the
  sign and the digits (`int('- 5') == -5`). The model rejects that form.
- Python 2 byte strings only: no Unicode, locale-dependent `upper()` or
  `\s`. `CoordFile.py` imports `unicode_literals`; its literals are ASCII.
- CoordFile.Read: models the evidently intended `StationCoord`. As written,
  `StationCoord.__init__` evaluates the unbound name `crdate`
  (CoordFile.py:25), so the first decodable station line raises
  `NameError`. `read` would then raise when `skipError` is false and return
  `{}` when it is true. Line 28 also never sets `self.flag`. With the
  intended record the station loop cannot raise, so `skipError` has no
  effect in the model.
- CoordCompare.Compare: a missing velocity is a `NaN` cell. As written, line
  161 evaluates `np.Nan`, which numpy does not define, so asking for
  velocities with a source that has none raises `AttributeError`.
- CoordCompare.Compare: `GRS80.geodetic` is the parameter `geodetic`. The
  numpy differences, ENU rotation and norm (lines 162-177) are `Derived`
  cells named by their column, since floating-point linear algebra is out of
  scope. The `pandas.DataFrame` and `set_index` become a plain table of
  columns and rows.
- CoordCompare.Compare: the order of the `files` list stands for the order
  in which `**files` is iterated, and names are required to be distinct, as
  keyword arguments are. The output does not depend on the order (names and
  keys are sorted), but which error is raised first can.
- Fortran.Format.SetFormat: `namedtuple` raises `ValueError` on field names
  that are not identifiers or that repeat. The model accepts any names of
  the right count.
- Util.CampaignFile: the bare `except` (Util.py:27-28) is modelled for a
  missing menu file only. No other exception can arise in the model.
- Util.ExpandPath reads the environment at import time (Util.py:6-8). That
  becomes the `Env` parameter.
- Residuals.Residuals.Open: the data after the station table is left out:
  - `_skipTo` to the `Num Epoch` heading (lines 60, 81-87);
  - `numpy.loadtxt` of the residual records and the epoch arithmetic
    (lines 59-77);
  - `offsets` as an array, `obsdate`, `satellites`;
  - `filepath` and `filename` (`os.path.basename`).
  
  These are numpy data handling. The modelled attributes are the header
  ones and `lines`. The omitted lines 59-87 can still raise on a file the
  model reads. They always raise when the station table is empty: either
  `_skipTo` reaches the end of the file (line 85, where it names the
  unbound `filename`), or `data['epoch'] *= period` (line 69) reads
  `period`, which only the table loop binds. So an `Ok` result of `Open`
  is not a promise that the constructor returns.
- Residuals.Residuals.Open: `plot` (line 89 on) draws with matplotlib and is
  not modelled.
- Residuals.Residuals.ReadHeader: the initial attribute is spelled `srccprogram`
  (line 19), while line 37 sets `srcprogram`. Both are modelled as written,
  so `srcprogram` is absent until a header line sets it.
- `StationCoord.epochXyz` (CoordFile.py:30-36) and `compare_main`
  (CoordFile.py:195-220) are outside the reading core: date arithmetic and a
  command-line wrapper.

## Findings

| source | as written | input that shows it | evidently intended | confidence | as-written member | corrected member |
|---|---|---|---|---|---|---|
| LINZ/Bernese/Residuals.py:24-27 | The header loop breaks only on a `Num Station 1` line. At the end of the file `readline` returns `''`, which matches neither pattern, so the loop never ends. | A file with no `Num  Station  1` line, e.g. an empty file | Raise `RuntimeError` at the end of the file, as `_skipTo` (lines 81-87) does for the later heading | not executed | Residuals.WrittenScanNeverStops | Residuals.ParseNoHeading |
