# TrafiVision in Dafny

TrafiVision builds one labelled traffic dataset for Madrid from three
sources:

- camera captures (`camaras_solo.csv`);
- vehicle counts that a YOLO detector produces for each captured image (`yolo_final.csv`);
- a weather feed polled from Open-Meteo every fifteen minutes (`tiempo_madrid.csv`).

This project models the logic of the four scripts that build and clean that
dataset, and proves properties of the model.

- **`merge_datasets_final.py`** (modules `HourPattern`, `Calendar`,
  `MergeDatasets`, `ToleranceJoin`, `InnerJoin`, `DatasetAssembly`). The
  steps of the script:
  1. The Windows `basename` of an image path.
  2. The hour normaliser `limpiar_hhmm`: the leftmost match of
     `\b([01]?\d|2[0-3]):([0-5]\d)\b`, with the hour zero-padded.
  3. The date-and-hour instant `combinar_fecha_hora`.
  4. The working-day label and the time-of-day band, checked against the
     thirteen Madrid holidays of 2025.
  5. The inner join of cameras and detections on the image basename.
  6. The left-outer join `merge_con_tolerancia`, which attaches the nearest
     weather row of the same date within two minutes; ties go to the first
     such row.
  7. The final projection of the columns.
- **`etl_tiempo.py`** (module `EtlTiempo`):
  - the rain categories and the wait until the next quarter-hour block;
  - the reading of the Open-Meteo answer, with its `current_weather`
    fallback;
  - the append to the weather CSV. It drops rows that repeat a
    (fecha, hora) key and keeps the first occurrence.
- **`yolo_final.py`** (module `YoloFinal`):
  - the vehicle count from the detected class ids;
  - the three traffic levels;
  - the folder pass, which keeps the image files, sorts their names and
    emits one result row per image.
- **`limpiar_hora_dataset.py`** (module `LimpiarHoraDataset`): the second
  copy of `limpiar_hhmm`, which strips but does not collapse whitespace, and
  the rewrite of the `hora` column of the final CSV.

Whatever the scripts take from outside is a parameter of the model:

- the clock (`datetime.now()`);
- the HTTP answer, already decoded;
- the directory listing;
- the previous contents of a CSV file;
- the detector's output for each image;
- pandas' free-form `pd.to_datetime` fallback, as `parse: string -> Option<TimeOfDay>`.

Points of the code worth knowing:

- The camera/detector join compares basenames exactly, so it is
  case-sensitive.
- The weather CSV keeps the first row of each (fecha, hora) key (pandas'
  default `keep="first"`).
- The merge script does not deduplicate weather rows. It reads the file as
  `etl_tiempo.py` wrote it, already without repeated keys.
- The merge script's `limpiar_hhmm` collapses runs of whitespace. The copy
  in `limpiar_hora_dataset.py` does not. Both give the same result whenever
  the pattern matches (`LimpiarHoraDataset.AgreesWithMerge`).
- `basename` follows Windows path rules (`ntpath`): `/` and `\` both
  separate components, and a drive prefix is dropped. The repository's
  paths are Windows paths.

## Model

| member | source | states |
|---|---|---|
| `MergeDatasets.LastComponent` | merge_datasets_final.py:36-37 | the result is the suffix after the last `/` or `\` and holds no separator |
| `MergeDatasets.Basename` | merge_datasets_final.py:36-37 | `os.path.basename(p).strip()` never contains a path separator |
| `MergeDatasets.BasenameOfJoin` | merge_datasets_final.py:36-37 | the basename of `dir\name` is the stripped file name |
| `MergeDatasets.BasenameOfName` | merge_datasets_final.py:36-37 | a bare file name without a drive is its own basename, stripped |
| `HourPattern.MatchBody` | merge_datasets_final.py:45 | the pattern matches at a position exactly when one of its three alternatives does (`[01]\d`, `\d`, `2[0-3]`, then `:[0-5]\d`); a match gives a canonical `HH:MM` |
| `HourPattern.AlternativesExclusive` | merge_datasets_final.py:45 | at most one alternative succeeds at a position, so the match is deterministic |
| `HourPattern.Search` | merge_datasets_final.py:45-48 | the result of `re.search` plus zero-padding is always a canonical `HH:MM` |
| `HourPattern.SearchLeftmost` | merge_datasets_final.py:45 | the search returns the match at the leftmost matching position |
| `HourPattern.SearchFromNone` | merge_datasets_final.py:45-46 | the search fails exactly when the pattern matches at no position |
| `HourPattern.SearchOfCanonical` | merge_datasets_final.py:45-48 | a canonical `HH:MM` is found whole at its own start |
| `HourPattern.SearchReplaceSpace` | merge_datasets_final.py:43 | replacing one whitespace character by another does not change what the pattern finds |
| `HourPattern.SearchCollapse` | merge_datasets_final.py:44 | `re.sub(r"\s+", " ", s)` does not change what the pattern finds |
| `HourPattern.SearchStrip` | merge_datasets_final.py:44 | `strip()` does not change what the pattern finds |
| `HourPattern.ClockOfFormat` | merge_datasets_final.py:52 | `strftime("%H:%M")` can be read back to the same hour and minute |
| `MergeDatasets.Prepare` | merge_datasets_final.py:43-44 | the line-break replacement, whitespace collapse and strip leave the search result unchanged |
| `MergeDatasets.LimpiarHhmm` | merge_datasets_final.py:39-55 | null gives None; a match gives the padded match; otherwise the `%H:%M` of the fallback parse or None; any result is a canonical `HH:MM` |
| `MergeDatasets.LimpiarHhmmFixesCanonical` | merge_datasets_final.py:45-48 | a canonical `HH:MM` is returned unchanged |
| `MergeDatasets.LimpiarHhmmIdempotent` | merge_datasets_final.py:39-55 | normalising twice equals normalising once, for every input and fallback parser |
| `MergeDatasets.SearchWithoutColon` | merge_datasets_final.py:45-46 | text without `:` never matches |
| `MergeDatasets.SearchExampleTimestamp` | merge_datasets_final.py:45-48 | "2025-10-05 08:30:00" gives "08:30" |
| `MergeDatasets.SearchExampleTime` | merge_datasets_final.py:45-48 | "08:30:00" gives "08:30": the seconds are not part of the match |
| `MergeDatasets.SearchExampleDate` | merge_datasets_final.py:45-48 | a date alone has no hour |
| `MergeDatasets.SearchExampleOneDigit` | merge_datasets_final.py:45-48 | "8:05" gives "08:05" |
| `MergeDatasets.SearchExampleHour24` | merge_datasets_final.py:45 | "24:00" has no match |
| `MergeDatasets.LimpiarHhmmExamples` | merge_datasets_final.py:39-55 | the three examples through the whole normaliser; "24:00" yields a value only through the fallback parser |
| `MergeDatasets.MinuteOfDay` | merge_datasets_final.py:63 | a canonical `HH:MM` names a minute of the day in 0..1439 with that hour and minute |
| `MergeDatasets.CombinarFechaHora` | merge_datasets_final.py:57-65 | NaT exactly when the hour does not normalise, the date fields do not name a calendar day, or the combined minute lies outside the Timestamp range; otherwise that day and the minute of the normalised hour |
| `MergeDatasets.CombinarAtEarliestDay` | merge_datasets_final.py:63 | on 1677-09-21, whose midnight is out of range, 00:20 gives an instant and 00:10 gives NaT |
| `MergeDatasets.CombinarAtLatestDay` | merge_datasets_final.py:63 | on 2262-04-11, 23:40 gives an instant and 23:50 gives NaT |
| `Calendar.TimestampInstantLimits` | merge_datasets_final.py:63 | the minute bound is the last whole minute within 2^63 - 1 nanoseconds of the epoch; the range ends inside 1677-09-21 and 2262-04-11 |
| `MergeDatasets.CombinarAfterLimpiar` | merge_datasets_final.py:141-145 | combining an hour that is already normalised gives the same instant as combining the raw hour |
| `Calendar.ParseDate` | merge_datasets_final.py:162 | a parsed `%Y-%m-%d` date is a real calendar day whose midnight lies in the pandas Timestamp range, and it is the day the date fields name |
| `Calendar.ParseCalendarDate` | merge_datasets_final.py:63 | the date fields of `%Y-%m-%d`, when they parse, name a real calendar day |
| `Calendar.ParseEarliestDay` | merge_datasets_final.py:162 | "1677-09-21" names a day but is NaT as a date, its midnight being before the Timestamp range |
| `Calendar.ParseLatestDay` | merge_datasets_final.py:162 | "2262-04-11" parses as a date |
| `Calendar.ParseFormatDate` | merge_datasets_final.py:73 | formatting a date as `%Y-%m-%d` and parsing it back gives the same date |
| `Calendar.ParseFormatCalendarDate` | merge_datasets_final.py:63 | the date fields of any formatted calendar day read back to that day |
| `Calendar.Weekday` | merge_datasets_final.py:77 | `weekday()` lies in 0..6; with `WeekdayOfEpoch` and `WeekdayNext` it is the day of the week counted from Thursday 1970-01-01 |
| `Calendar.DayNumberNext` | merge_datasets_final.py:77 | the day after a calendar day, across month and year ends and leap days, has the next day number |
| `Calendar.WeekdayNext` | merge_datasets_final.py:77 | the weekday of the next day is one more, modulo seven |
| `Calendar.ShiftedYearLength` | merge_datasets_final.py:77 | the year from March to February has 366 days exactly when its February is in a Gregorian leap year |
| `Calendar.MonthStartStep` | merge_datasets_final.py:77 | the month offsets from March to January step by the month lengths 31, 30, 31, 30, 31, 31, 30, 31, 30, 31, 31 |
| `Calendar.WeekdayOfEpoch` | merge_datasets_final.py:77 | 1970-01-01 is a Thursday (3) |
| `Calendar.WeekdaysOctober2025` | merge_datasets_final.py:77 | 2025-10-11 is a Saturday, 2025-10-12 a Sunday, 2025-10-13 a Monday |
| `MergeDatasets.Formatted` | merge_datasets_final.py:67-73 | every listed holiday date formats as one of the thirteen listed strings |
| `MergeDatasets.Listed` | merge_datasets_final.py:67-73 | every listed string is the format of a listed date |
| `MergeDatasets.ListedDate` | merge_datasets_final.py:67-73 | a date whose format is listed is a listed date |
| `MergeDatasets.EsFestivoIffListed` | merge_datasets_final.py:67-73 | the string comparison with the holiday set holds exactly for the thirteen 2025 dates |
| `MergeDatasets.EtiquetaLaborable` | merge_datasets_final.py:75-79 | "No laborable" exactly on Saturday, Sunday or a listed holiday |
| `MergeDatasets.EtiquetaExamples` | merge_datasets_final.py:75-79 | 2025-10-11 (Saturday) and 2025-12-08 (holiday) are non-working; 2025-10-13 is a working day |
| `MergeDatasets.FranjaDeHora` | merge_datasets_final.py:81-91 | each band holds exactly its hours: 5-7, 8-12, 13-16, 17-20, and night otherwise |
| `MergeDatasets.FranjasPartitionDay` | merge_datasets_final.py:81-91 | the five bands split the 24 hours into sets of 3, 5, 4, 4 and 8 hours |
| `MergeDatasets.FranjaHoraria` | merge_datasets_final.py:81-91 | the band of the instant's hour; a NaT instant falls to "noche" |
| `Calendar.Dist` | merge_datasets_final.py:108 | the absolute difference of two instants in minutes |
| `ToleranceJoin.NearestUnique` | merge_datasets_final.py:108-112 | at most one right row is the nearest one |
| `ToleranceJoin.IndicesWith` | merge_datasets_final.py:100 | the rows of one date, in their original order, and all of them |
| `ToleranceJoin.GroupByFecha` | merge_datasets_final.py:100 | `groupby` keeps exactly the dates that occur, each with its rows in order |
| `ToleranceJoin.Closest` | merge_datasets_final.py:108-112 | no match exactly when no row of the group is within tolerance; otherwise a row of the group within tolerance |
| `ToleranceJoin.ClosestLeast` | merge_datasets_final.py:108-112 | no row of the group within tolerance is nearer than the row found (`idxmin` of the gaps) |
| `ToleranceJoin.ClosestFirst` | merge_datasets_final.py:108-112 | every row within tolerance before the row found is strictly farther, so ties go to the first row |
| `ToleranceJoin.ClosestOnDate` | merge_datasets_final.py:105-112 | the scan over one date finds the reference nearest row, and finds none exactly when there is no candidate |
| `ToleranceJoin.ClosestIsNearest` | merge_datasets_final.py:108-112 | the scanned row is the reference nearest row |
| `ToleranceJoin.NearestIndex` | merge_datasets_final.py:105-112 | the reference nearest row of a date, or none exactly when there is no candidate |
| `ToleranceJoin.NearestIndexIff` | merge_datasets_final.py:108-112 | the computed match is the reference nearest row, in both directions |
| `ToleranceJoin.AnexoOf` | merge_datasets_final.py:104-115 | a NaT instant gets nulls; no candidate gets nulls; otherwise the payload of the nearest row |
| `ToleranceJoin.AnexoWithinTolerance` | merge_datasets_final.py:105-109 | attached weather comes from a row of the same date within the tolerance |
| `ToleranceJoin.AnexoWithoutGroup` | merge_datasets_final.py:105 | a date without right rows gets nulls |
| `ToleranceJoin.MergeSpec` | merge_datasets_final.py:98-118 | one output row per left row, in left order, holding the left row unchanged and its attached weather |
| `ToleranceJoin.MergeConTolerancia` | merge_datasets_final.py:93-118 | the loop over left rows with the per-date lookup builds exactly that table |
| `ToleranceJoin.Anexo` | merge_datasets_final.py:104-115 | the columns the loop attaches to one left row, from the group of its date, are those of the reference match |
| `ToleranceJoin.ExampleNearest` | merge_datasets_final.py:108-112 | 10:00 against 09:58, 10:01 and 10:05 with tolerance 2 picks 10:01 |
| `ToleranceJoin.ExampleTie` | merge_datasets_final.py:112 | of two rows one minute away, the first one wins |
| `InnerJoin.MatchesOf` | merge_datasets_final.py:134-138 | the right rows of one key never outnumber the right table |
| `InnerJoin.Join` | merge_datasets_final.py:134-138 | the join never has more rows than the product of the two tables; its content is given by `JoinSound`, `JoinComplete` and `JoinAppend` |
| `InnerJoin.JoinSound` | merge_datasets_final.py:134-138 | every joined row pairs a left and a right row with the same key |
| `InnerJoin.JoinComplete` | merge_datasets_final.py:134-138 | every such pair is joined |
| `InnerJoin.JoinAppend` | merge_datasets_final.py:134-138 | the join follows the left table's order: the join of a concatenation is the concatenation of the joins |
| `InnerJoin.JoinAtMostLeft` | merge_datasets_final.py:134-138 | with unique right keys the join never has more rows than the left table |
| `InnerJoin.UniqueKeyOneMatch` | merge_datasets_final.py:134-138 | with unique right keys a left row has at most one match |
| `InnerJoin.NoMatchWithoutKey` | merge_datasets_final.py:134-138 | a left row whose key no right row has is dropped |
| `InnerJoin.JoinOneOfTwo` | merge_datasets_final.py:134-138 | two left rows, one right row matching the first: one joined row |
| `DatasetAssembly.CamYoloSound` | merge_datasets_final.py:126-138 | every `cam_yolo` row is a camera row with the detector columns of a detection of the same basename |
| `DatasetAssembly.CamYoloComplete` | merge_datasets_final.py:126-138 | every camera row whose image was detected appears, with the detector columns |
| `DatasetAssembly.CamYoloTable` | merge_datasets_final.py:126-138 | `cam_yolo` never has more rows than the product of the two tables; its content is given by `CamYoloSound` and `CamYoloComplete` |
| `DatasetAssembly.CamYoloDropsUndetected` | merge_datasets_final.py:126-138 | a capture whose image basename no detector row has leaves no row: no row has its basename or its camera row |
| `DatasetAssembly.CamYoloOneMatch` | merge_datasets_final.py:126-138 | example: two captures of different basenames and one detection of the first give exactly the row of the first |
| `DatasetAssembly.CamYoloOneDetection` | merge_datasets_final.py:126-138 | captures `dir\a` and `dir\b` with a detection only of `a` give the one row of `a` |
| `DatasetAssembly.CamKey` | merge_datasets_final.py:141-148 | a `cam_yolo` row gets its normalised hour and its instant |
| `DatasetAssembly.MetKey` | merge_datasets_final.py:142-149 | a weather row gets its normalised hour and its instant |
| `DatasetAssembly.FinalColumns` | merge_datasets_final.py:170-179 | `ciudad` and `calle` appear exactly when the camera table has them, with ten fixed columns besides |
| `DatasetAssembly.FinalColumnsAt` | merge_datasets_final.py:170-179 | the column names in their order |
| `DatasetAssembly.HoraCell` | merge_datasets_final.py:167 | NaT gives a null cell; otherwise a canonical `%H:%M` that reads back to the hour and minute of the instant |
| `DatasetAssembly.HoraCellOfCam` | merge_datasets_final.py:141-167 | the output hour of a capture with an instant is its own hour, normalised |
| `DatasetAssembly.LeadCells` | merge_datasets_final.py:172-173 | the optional `ciudad` and `calle` cells come first, in that order |
| `DatasetAssembly.FinalRow` | merge_datasets_final.py:162-181 | a row fails exactly when its date does not parse; otherwise it has one cell per output column |
| `DatasetAssembly.FinalRows` | merge_datasets_final.py:162-164 | a successful pass has one row per merged row |
| `DatasetAssembly.FinalRowsFail` | merge_datasets_final.py:162-163 | the pass fails exactly when some date does not parse |
| `DatasetAssembly.FinalRowsEach` | merge_datasets_final.py:162-181 | output row i is the row built from merged row i |
| `DatasetAssembly.MergeDatasetsScript` | merge_datasets_final.py:121-182 | the script body computes the assembled table |
| `DatasetAssembly.Assemble` | merge_datasets_final.py:121-182 | an empty `cam_yolo` gives the KeyError; a successful table has the output columns and one row per `cam_yolo` row |
| `DatasetAssembly.AssembleFails` | merge_datasets_final.py:152-163 | the script fails exactly when no capture was detected or a detected capture's date does not parse |
| `DatasetAssembly.AssembleRows` | merge_datasets_final.py:126-181 | output row i holds `cam_yolo` row i's date, its own hour normalised (null without an instant), image, detector columns, nearest weather within two minutes or nulls, and both labels |
| `DatasetAssembly.AssembleRow` | merge_datasets_final.py:152-181 | output row i is built from `cam_yolo` row i and the weather attached to it; the row count is that of `cam_yolo` |
| `DatasetAssembly.AssembleWeatherWithinTolerance` | merge_datasets_final.py:141-159 | attached weather comes from a weather row of the same date whose instant is at most two minutes away |
| `EtlTiempo.ClasificaLluvia` | etl_tiempo.py:46-53 | "No" exactly up to 0.1, "Débil" exactly in (0.1, 0.3], "Sí" exactly above 0.3 |
| `EtlTiempo.ClasificaLluviaMonotone` | etl_tiempo.py:46-53 | more precipitation never gives a lighter category |
| `EtlTiempo.FloorDiv` | etl_tiempo.py:62 | Python's `//` rounds the quotient down, for either sign of the divisor |
| `EtlTiempo.SegundosHastaSiguienteBloque` | etl_tiempo.py:56-64 | a wait exists exactly when the interval is not zero (`//` by zero raises) |
| `EtlTiempo.SiguienteBloqueEsPrimerMultiplo` | etl_tiempo.py:62-63 | the next block's minute is a multiple of the interval, after the current minute by at most one interval, and no multiple lies in between |
| `EtlTiempo.EsperaAcotada` | etl_tiempo.py:61-64 | with a positive interval the wait lies in (0, intervalo·60] seconds |
| `EtlTiempo.BloquesDeQuince` | etl_tiempo.py:62 | with the interval of 15 the next block starts at :15, :30, :45 or the next hour |
| `EtlTiempo.Campos` | etl_tiempo.py:75 | an absent block reads as an empty object, an object as itself, and a `null` block gives None (the next `.get` raises) |
| `EtlTiempo.LeerMedicion` | etl_tiempo.py:75-85 | the reading raises exactly on a `null` `current`, or on a `null` `current_weather` when it is needed; its values are given by `SinFallback` and `ConFallback` |
| `EtlTiempo.SinFallback` | etl_tiempo.py:75-81 | when `current` has a temperature, `current_weather` is never consulted |
| `EtlTiempo.ConFallback` | etl_tiempo.py:81-85 | otherwise the temperature comes from `current_weather`; precipitation comes from it too, unless it lacks the key, in which case the earlier value stays |
| `EtlTiempo.NuevoRegistro` | etl_tiempo.py:88-102 | the new row carries the `%Y-%m-%d` date, which parses back to the day, and the canonical `%H:%M` hour of `ahora`, with the rain label of its precipitation |
| `EtlTiempo.SinPrecipitacion` | etl_tiempo.py:88-101 | with no precipitation value the row records 0 and "No" |
| `EtlTiempo.DedupStep` | etl_tiempo.py:107-108 | appending a row: kept exactly when its key is new |
| `EtlTiempo.Dedup` | etl_tiempo.py:108 | the result is no longer than the input, non-empty for a non-empty input, and holds only input rows; its content is given by `DedupEsPrimeras` |
| `EtlTiempo.DedupClaves` | etl_tiempo.py:108 | dropping duplicates keeps every key |
| `EtlTiempo.DedupUnicas` | etl_tiempo.py:108 | after dropping duplicates no two rows share a key |
| `EtlTiempo.Primeras` | etl_tiempo.py:108 | the increasing indices of exactly the rows that are first with their key |
| `EtlTiempo.DedupEsPrimeras` | etl_tiempo.py:108 | the result is the subsequence of first occurrences, in order (`keep="first"`) |
| `EtlTiempo.DedupUnicasFijas` | etl_tiempo.py:108 | rows with unique keys are left as they are |
| `EtlTiempo.DropDuplicates` | etl_tiempo.py:108 | the scan with the set of keys seen computes the deduplicated rows |
| `EtlTiempo.Escribir` | etl_tiempo.py:104-110 | the written file holds at least one row and at most one more than the old file, each either the new row or an old one; its content is given by `EscribirClaves` and `EscribirConserva` |
| `EtlTiempo.EscribirClaves` | etl_tiempo.py:104-110 | the written file never repeats a key and holds the new key; an existing key beats the new row; without a file the result is the new row alone |
| `EtlTiempo.EscribirConserva` | etl_tiempo.py:105-108 | a file with unique keys keeps all its rows first, plus the new row only if its key is new |
| `EtlTiempo.GetWeather` | etl_tiempo.py:67-117 | nothing is written exactly when the request failed or the reading raised; otherwise the file after the append |
| `YoloFinal.ClasificarTrafico` | yolo_final.py:40-47 | "Bajo" exactly up to 5, "Medio" exactly for 6-15, "Alto" exactly above 15 |
| `YoloFinal.ClasificarTraficoMonotone` | yolo_final.py:40-47 | a larger count never gives a lower level |
| `YoloFinal.Truncar` | yolo_final.py:60 | `int(c)` truncates toward zero |
| `YoloFinal.Conteo` | yolo_final.py:60 | the count never exceeds the number of boxes |
| `YoloFinal.ConteoEsVehiculos` | yolo_final.py:59-60 | the count is the number of boxes whose class id is 1, 2, 3, 5 or 7 |
| `YoloFinal.AnalizarImagen` | yolo_final.py:50-64 | the vehicle count of the boxes, at most their number; 0 when the detector fails or finds no boxes |
| `YoloFinal.FalloEsBajo` | yolo_final.py:62-64 | an image the detector cannot analyse counts as low traffic |
| `YoloFinal.FiltrarImagenes` | yolo_final.py:73 | exactly the names whose lower-case form ends in `.jpg`, `.jpeg` or `.png`, with their multiplicities |
| `YoloFinal.MenorTotal` | yolo_final.py:74 | Python's string order is total |
| `YoloFinal.MenorTransitivo` | yolo_final.py:74 | Python's string order is transitive |
| `YoloFinal.OrdenadaTodos` | yolo_final.py:74 | in a sorted list every name is at most every later one |
| `YoloFinal.Insertar` | yolo_final.py:74 | inserting into a sorted list keeps it sorted and adds exactly that name |
| `YoloFinal.Ordenar` | yolo_final.py:74 | `sort()` gives a sorted permutation |
| `YoloFinal.Archivos` | yolo_final.py:73-74 | the visited files are the image files of the listing, sorted ascending, each as often as listed |
| `YoloFinal.ProcesarCarpeta` | yolo_final.py:79-87 | one row per image file in sorted order, with the file name, its vehicle count and the level of that count |
| `LimpiarHoraDataset.Preparar` | limpiar_hora_dataset.py:20-22 | strip and line-break replacement leave the search result unchanged |
| `LimpiarHoraDataset.LimpiarHhmm` | limpiar_hora_dataset.py:16-33 | a missing cell gives None; a match gives the padded match; otherwise the `%H:%M` of the fallback parse or None; any result is canonical |
| `LimpiarHoraDataset.LimpiarHhmmFixesCanonical` | limpiar_hora_dataset.py:22-26 | a canonical `HH:MM` is returned unchanged |
| `LimpiarHoraDataset.LimpiarHhmmIdempotent` | limpiar_hora_dataset.py:16-33 | cleaning twice equals cleaning once |
| `LimpiarHoraDataset.AgreesWithMerge` | limpiar_hora_dataset.py:20-26 | agrees with the merge script's normaliser on missing cells, whenever the pattern matches, and whenever the fallback parser reads both preparations alike |
| `LimpiarHoraDataset.IndiceDe` | limpiar_hora_dataset.py:41 | the first position of the column name |
| `LimpiarHoraDataset.LimpiarTabla` | limpiar_hora_dataset.py:36-41 | the error message exactly when there is no `hora` column; otherwise the same columns and row count, every `hora` cell cleaned and every other cell unchanged |
| `LimpiarHoraDataset.LimpiarTablaIdempotente` | limpiar_hora_dataset.py:41 | running the clean-up on its own output changes nothing |

## Left out

- `etl_camaras_madrid.py` is not part of this model. It downloads camera images and appends to a CSV, and is I/O only.
- I/O is left out: CSV reading and writing, `os.path.exists`, `os.makedirs`, `os.listdir` (its result is a parameter), `requests` and JSON decoding (the decoded answer is a parameter), and `print`. The hard-coded Windows paths are left out too.
- The weather script's `while True` loop and `time.sleep` are left out. The clock is a parameter (`Momento`).
- Loading YOLO and `model.predict` are left out. The detector's per-image output is the parameter `predecir`. Because the image folder is fixed, `os.path.join(IMG_DIR, archivo)` is a function of the file name.
- The free-form `pd.to_datetime(s, errors="coerce")` fallback of both normalisers is the parameter `parse`. Its `%H:%M` rendering is modelled.
- `\b` and `\d` are ASCII-only in the model. Python's Unicode `\w` and Unicode digits are not modelled.
- EtlTiempo.ClasificaLluvia: thresholds and values are exact reals, not IEEE doubles. Only a double within one ulp of 0.1 or 0.3 could be classified differently.
- EtlTiempo.NuevoRegistro: `round(..., 2)` of the stored precipitation is not modelled. The stored value is the unrounded one; the rain label uses the unrounded value in both the source and the model.
- In the Open-Meteo answer, JSON members are modelled as absent, `null` or numeric. `weather_code` is read but never written, so it is left out. Non-numeric members, whose `float()` may raise, are left out.
- Old weather rows are read back with string `fecha` and `hora` keys. Rows of a previous file with empty key cells (NaN keys) are not modelled.
- In the image filter, `lower()` is ASCII-only. Unicode case mappings, including those that change length, are not modelled.
- YoloFinal.Ordenar: `archivos.sort()` sorts the list in place. The model rebinds `archivos` to its sorted value; no other reference to the list exists.
- LimpiarHoraDataset.LimpiarTabla: the table is assumed to have distinct column names and rows as wide as the header, as `pd.read_csv` produces.
- Pandas NaT handling in the final labels is limited to what the script does: an unparsable date aborts the script (NaT has no `strftime`), and a NaT instant gets the band "noche" and a null hour.
- The pandas behaviour modelled is that of versions 2.2 and 2.3. The inner merge keeps the left table's order (`InnerJoin.JoinAppend`); before 2.2, repeated non-adjacent basenames came out grouped by key. The Timestamp range is the nanosecond range (`Calendar.InTimestampRange`, `Calendar.InTimestampInstant`); pandas 3 infers a coarser unit for strings and accepts dates outside it, such as 1500-01-01.
- `basename` splits off only a drive of the form `X:`. UNC drives (`//server/share`) are not modelled: Python gives "" for `basename("//server/share")` where the model gives "share".
- Float columns other than precipitation (temperature, the detector's class ids) are reals.
