# Garbage-collection schedule lookup, modelled in Dafny

This project models the core of the Ribeirão Preto garbage-collection lookup page
(`coleta-lixo-ribeirao-preto/js/app.js`). The page finds which collection area holds an
address and shows that area's collection days, shift and time. The model covers:

- **Point in area.** `rayCasting` is the even-odd ray test on one ring.
  `pontoEmPoligono` applies it to every ring of a `Polygon` or `MultiPolygon`.
  `encontrarAreaNoGeoJSON` returns the properties of the first containing feature, which
  may be `null`.
  Coordinates are exact reals. Points are `[lon, lat]`, so x is the longitude.
- **Frequency text.** `formatarFrequencia` rewrites a frequency value in four stages:
  - drop the shift;
  - abbreviate weekday names;
  - replace the ordinal weekdays `2ª`..`6ª`;
  - normalise the separators.

  Each regular-expression `replace` is one left-to-right global replacement. It is
  modelled over a small pattern type: literal alternatives, tried in order, with or
  without ignore-case; `\s+`; and `,\s*,`. Ignore-case matching uses the ECMAScript
  `Canonicalize` fold. `toUpperCase` is modelled separately, because it also maps
  dotless i and long s to ASCII.
- **The smaller formatters.** `extrairTurno` returns the leftmost shift name, upper-cased.
  `formatarTurno` gives the shift's label. `formatarHorario` rewrites only the first
  case-sensitive occurrence of each of its two phrases.
- **One result panel.** For one collection service, `atualizarResultados` shows three
  texts: frequency, shift and time. They are read from the found area's properties through
  JavaScript `a || b` chains, where a missing key and an empty string are both falsy.
- **The short address.** `formatarEnderecoExibicao` joins the street (with its house
  number), the neighbourhood and the city with ` - `. Without any of those it falls back to
  the first three comma fields of the display name. The configured city name is a
  parameter.

Modules: `Wrappers` (optional values), `Text` (characters, case, whitespace, the pattern
matcher, replace, trim, split, join), `Rewrite` (ordered rule lists), `Containment`,
`ZoneIndex`, `Schedule`, `DayNames`, `DayLists`, `OrdinalDays`, `FrequencyExamples`,
`Formatters`, `Fields`, `Descriptors`, `AddressFormat`, and `Scenario`. `Scenario` follows one square area end to end, from the lookup to the panel.

The code behaves as follows, and the model follows it:

- Property keys are looked up by a fixed list of spellings, not case-insensitively.
- An unknown geometry type yields "not contained" rather than an error.
- An unknown shift value is shown unchanged rather than as `-`.
- The comma step (`/,\s*,/g`) makes one pass, so a run of three commas becomes two.
  `FrequencyExamples.CommaRunSinglePass` states this.

## Model

| member | source | states |
|---|---|---|
| Containment.RayCasting | coleta-lixo-ribeirao-preto/js/app.js:392-406 | The loop's answer is true exactly when the ray from the point crosses an odd number of edges, where edge k joins vertex k to vertex k-1 and vertex 0 to the last vertex. |
| Containment.Crosses | coleta-lixo-ribeirao-preto/js/app.js:400 | The edge test divides only when the heights of the two endpoints differ. A crossed edge spans the point's height and reaches to the right of the point. |
| Containment.InterceptBetween | coleta-lixo-ribeirao-preto/js/app.js:400 | Under the guard, the computed intercept lies between the x-coordinates of the edge's endpoints. |
| Containment.CrossesSymmetric | coleta-lixo-ribeirao-preto/js/app.js:400 | The crossing test gives the same answer whichever endpoint comes first. |
| Containment.DegenerateRingOutside | coleta-lixo-ribeirao-preto/js/app.js:392-406 | A ring of fewer than three vertices contains no point. |
| Containment.BelowAllOutside | coleta-lixo-ribeirao-preto/js/app.js:392-406 | A point below every vertex is outside. |
| Containment.AboveAllOutside | coleta-lixo-ribeirao-preto/js/app.js:392-406 | A point at or above every vertex is outside. |
| Containment.RightOfAllOutside | coleta-lixo-ribeirao-preto/js/app.js:392-406 | A point at or to the right of every vertex is outside. |
| Containment.ReverseInvariant | coleta-lixo-ribeirao-preto/js/app.js:392-406 | Reversing a ring's vertex order classifies every point the same way. |
| Containment.ClosingVertexInvariant | coleta-lixo-ribeirao-preto/js/app.js:392-406 | Repeating the first vertex at the end, as GeoJSON rings do, changes no answer. |
| ZoneIndex.AnyRing | coleta-lixo-ribeirao-preto/js/app.js:382-386 | The inner loop succeeds exactly when some ring of the polygon contains the point. |
| ZoneIndex.AnyPolygon | coleta-lixo-ribeirao-preto/js/app.js:381-389 | The nested loops succeed exactly when some ring of some polygon contains the point. |
| ZoneIndex.PontoEmPoligono | coleta-lixo-ribeirao-preto/js/app.js:368-390 | An absent geometry or any type other than Polygon or MultiPolygon contains nothing. Otherwise the point is contained exactly when some ring of some polygon contains it. Hole rings count as solid and are never subtracted. |
| ZoneIndex.PolygonIsSingletonMultiPolygon | coleta-lixo-ribeirao-preto/js/app.js:373-376 | A Polygon is tested exactly like a MultiPolygon that holds only it. |
| ZoneIndex.FirstContaining | coleta-lixo-ribeirao-preto/js/app.js:358-362 | The index found contains the point and no earlier feature does. When none is found, no feature contains the point. |
| ZoneIndex.EncontrarArea | coleta-lixo-ribeirao-preto/js/app.js:353-365 | With no dataset or no feature list the answer is none, and so it is when no feature contains `[lon, lat]`. Otherwise it is the properties of the first feature in list order that contains the point, none when that feature has none; later features are not consulted. |
| Schedule.FormatarFrequencia | coleta-lixo-ribeirao-preto/js/app.js:447-493 | Absent or empty input gives `-`. Any other output has no whitespace at either end, no two whitespace characters in a row, no `/`, and no digit 2-6 followed by `ª`. |
| Schedule.OrdinalsRemoved | coleta-lixo-ribeirao-preto/js/app.js:478-482 | After the ordinal stage, no digit 2 to 6 is directly followed by `ª`. |
| Schedule.SlashRemoved | coleta-lixo-ribeirao-preto/js/app.js:486-489 | After the separator stage, no `/` is left. |
| Schedule.SeparatorsClean | coleta-lixo-ribeirao-preto/js/app.js:486-490 | A text with no ordinal pair comes out of the separator stage and the trim clean. |
| Schedule.StripShiftRemovesShift | coleta-lixo-ribeirao-preto/js/app.js:453-455 | A shift name after ` - ` or after a space, at the end of text without whitespace, is removed and nothing else changes. |
| DayLists.StripShiftKeepsUnspaced | coleta-lixo-ribeirao-preto/js/app.js:453-455 | Text without whitespace holds no shift and passes the first stage unchanged. |
| DayNames.FullNameAbbreviated | coleta-lixo-ribeirao-preto/js/app.js:459-474 | Each of the nine full weekday names (both Tuesday and both Saturday spellings), written in any letter case, becomes its three-letter abbreviation: no earlier rule matches anywhere inside it. |
| DayNames.FullNamesAbbreviated | coleta-lixo-ribeirao-preto/js/app.js:459-474 | Each of the nine full weekday names, as written in the rule list, becomes that rule's abbreviation. |
| DayLists.FullNameIsDayWord | coleta-lixo-ribeirao-preto/js/app.js:459-474 | A full weekday name in any letter case is a single weekday word and is abbreviated to its rule's replacement. |
| DayNames.ShortNameAbbreviated | coleta-lixo-ribeirao-preto/js/app.js:459-474 | A three-letter weekday name in any letter case becomes its abbreviation. |
| DayNames.AbbreviationStable | coleta-lixo-ribeirao-preto/js/app.js:459-474 | The weekday stage leaves each abbreviation as it is. |
| DayLists.DaysOfList | coleta-lixo-ribeirao-preto/js/app.js:459-474 | Around a separator character that is not a letter or `-`, the weekday stage works on each piece of a list on its own. |
| DayLists.SeparatorsOnSlashList | coleta-lixo-ribeirao-preto/js/app.js:486-490 | The separator stage turns a `/`-separated list of words into a `, `-separated one. |
| DayLists.FormatsDayList | coleta-lixo-ribeirao-preto/js/app.js:447-493 | A `/`-separated list of weekday words formats as the `, `-separated list of their abbreviations, in the same order. |
| DayLists.FormatsDayListWithShift | coleta-lixo-ribeirao-preto/js/app.js:447-493 | The same holds when the list is followed by a shift name after a space or after ` - `: the shift is dropped. |
| OrdinalDays.StripShiftKeepsWords | coleta-lixo-ribeirao-preto/js/app.js:453-455 | Space-separated words, none of which begins like a shift, pass the first stage unchanged. |
| OrdinalDays.OrdinalBecomesDay | coleta-lixo-ribeirao-preto/js/app.js:478-482 | `dª`, for a digit d from 2 to 6, becomes the abbreviation of the weekday in position d-1 counting from Monday. |
| OrdinalDays.OrdinalsOfList | coleta-lixo-ribeirao-preto/js/app.js:478-482 | Around a separator that is neither a digit nor `ª`, the ordinal stage works on each piece on its own. |
| OrdinalDays.SeparatorsOnConjunctionList | coleta-lixo-ribeirao-preto/js/app.js:486-490 | The separator stage turns words joined by ` e ` into a `, `-separated list. |
| FrequencyExamples.MondayWithShift | coleta-lixo-ribeirao-preto/js/app.js:450 | `SEGUNDA-FEIRA DIURNO` formats as `Seg`. |
| FrequencyExamples.ThreeDaysWithShift | coleta-lixo-ribeirao-preto/js/app.js:450 | `SEG/QUA/SEX - NOTURNO` formats as `Seg, Qua, Sex`. |
| FrequencyExamples.SaturdayWithShift | coleta-lixo-ribeirao-preto/js/app.js:450 | `SABADO DIURNO` formats as `Sáb`. |
| FrequencyExamples.LowerCaseThursday | coleta-lixo-ribeirao-preto/js/app.js:459-474 | `quinta-feira`, in lower case, is abbreviated to `Qui`. |
| FrequencyExamples.CommaRunSinglePass | coleta-lixo-ribeirao-preto/js/app.js:488 | The comma step makes one left-to-right pass, so `,,,` becomes `,,`. |
| FrequencyExamples.OrdinalAndSaturday | coleta-lixo-ribeirao-preto/js/app.js:476 | `3ª e Sáb.` formats as `Ter, Sáb.`. The full stop stays. |
| Formatters.ExtrairTurno | coleta-lixo-ribeirao-preto/js/app.js:505-510 | Absent or empty input gives none. Otherwise the answer is none exactly when no shift name begins anywhere, in any case. Else it is the shift name that matches at the leftmost position where one begins. |
| Formatters.ShiftNeedsLead | coleta-lixo-ribeirao-preto/js/app.js:508 | No shift name begins at a character that does not fold, ignoring case, to `D`, `N` or `V`. |
| Formatters.LeftmostShift | coleta-lixo-ribeirao-preto/js/app.js:505-510 | Conversely: when a shift name matches at some position and none matches earlier, the answer is that name. |
| Formatters.FormatarTurno | coleta-lixo-ribeirao-preto/js/app.js:495-503 | Absent or empty input gives `-`. A shift name in any case gets its label. Any other value is shown unchanged. |
| Formatters.FormatarTurnoIgnoresCase | coleta-lixo-ribeirao-preto/js/app.js:502 | Two spellings of a shift name that differ only in case get the same label, and that label is one of the three. |
| Formatters.FormatarTurnoDash | coleta-lixo-ribeirao-preto/js/app.js:495-503 | The shift shows `-` exactly for an absent or empty value and for `-` itself. |
| Formatters.ShiftFromFrequency | coleta-lixo-ribeirao-preto/js/app.js:495-510 | A shift read from a frequency text shows `-` exactly when the text names no shift. Otherwise it shows the label of the leftmost shift named. |
| Formatters.FormatarHorario | coleta-lixo-ribeirao-preto/js/app.js:512-515 | An absent or empty time shows `-`. What a present time becomes is stated by `Formatters.HorarioRewritesFirstOnly` (each phrase's first case-sensitive occurrence only is rewritten, the rest kept) and `Formatters.HorarioKeepsLength` (its length is kept). |
| Formatters.HorarioRewritesFirstOnly | coleta-lixo-ribeirao-preto/js/app.js:514 | Each rewrite replaces only the leftmost case-sensitive occurrence of its phrase. The text before and after that occurrence is kept, later occurrences included. A text without the phrase is kept whole. |
| Formatters.HorarioKeepsLength | coleta-lixo-ribeirao-preto/js/app.js:512-515 | A present time keeps its length. |
| Formatters.HorarioWithoutPhrases | coleta-lixo-ribeirao-preto/js/app.js:512-515 | A non-empty time holding neither `A PARTIR DAS ` nor `ATE ` is shown unchanged. |
| Formatters.FormatarHorarioDash | coleta-lixo-ribeirao-preto/js/app.js:512-515 | The time shows `-` exactly for an absent or empty value and for `-` itself. |
| Fields.FirstPresent | coleta-lixo-ribeirao-preto/js/app.js:419 | A chain of property reads joined by logical or is absent exactly when no key in it has a non-empty value. A present result is non-empty. |
| Fields.FirstPresentLeftmost | coleta-lixo-ribeirao-preto/js/app.js:422 | A present result is the value of a truthy key, and no earlier key of the chain is truthy. |
| Fields.FirstPresentAgree | coleta-lixo-ribeirao-preto/js/app.js:424 | A chain reads only the entries of its own keys. |
| Fields.LaterKeyShadowed | coleta-lixo-ribeirao-preto/js/app.js:261 | When a key is truthy, changing a later key of the chain changes nothing. |
| Descriptors.ShiftOf | coleta-lixo-ribeirao-preto/js/app.js:422 | A truthy shift field wins. Otherwise the shift comes from the frequency text. |
| Descriptors.Describe | coleta-lixo-ribeirao-preto/js/app.js:418-443 | No properties give (`Não disponível`, `-`, `-`). Otherwise the frequency is `-` or clean; a field with no truthy key shows `-`; the shift shows `-` when neither a shift field nor a frequency is present. |
| Descriptors.DescribeReadsOnlyItsKeys | coleta-lixo-ribeirao-preto/js/app.js:419-424 | A panel depends only on the seven keys its chains read. |
| Descriptors.ShiftFieldWins | coleta-lixo-ribeirao-preto/js/app.js:422-423 | With a truthy `TURNO` or `turno`, the shift shown does not depend on the frequency. |
| Descriptors.ShiftFromFrequencyField | coleta-lixo-ribeirao-preto/js/app.js:422-423 | Without a shift field, the shift shows `-` exactly when the frequency is missing or names no shift. Otherwise it shows the label of the leftmost shift named. |
| Descriptors.FrequencyUpperKeyFirst | coleta-lixo-ribeirao-preto/js/app.js:419 | A truthy `FREQUENCIA` hides `frequencia`. |
| Descriptors.ShiftUpperKeyFirst | coleta-lixo-ribeirao-preto/js/app.js:422 | A truthy `TURNO` hides `turno`. |
| Descriptors.TimeKeyFirst | coleta-lixo-ribeirao-preto/js/app.js:424 | A truthy `Horario` hides `horario` and `HORARIO`. |
| Descriptors.TimeChainOrder | coleta-lixo-ribeirao-preto/js/app.js:424 | The time chain yields `Horario` when truthy, else `horario` when truthy, else `HORARIO` when truthy, else nothing. |
| Descriptors.TimeFromKeys | coleta-lixo-ribeirao-preto/js/app.js:424 | The time shown is `formatarHorario` of `Horario` when truthy, else of `horario`, else of `HORARIO`, and `-` when none is truthy. |
| Descriptors.FrequencyChainOrder | coleta-lixo-ribeirao-preto/js/app.js:419 | The frequency chain yields `FREQUENCIA` when truthy, else `frequencia` when truthy, else nothing. |
| Descriptors.FrequencyFromKeys | coleta-lixo-ribeirao-preto/js/app.js:419-420 | The frequency shown is `formatarFrequencia` of `FREQUENCIA` when truthy, else of `frequencia`, and `-` when neither is truthy. |
| Descriptors.FrequencyOnly | coleta-lixo-ribeirao-preto/js/app.js:418-424 | An area whose only property is a non-empty `FREQUENCIA` shows that frequency formatted, the label of the shift read from it, and `-` for the time. |
| Descriptors.DashFields | coleta-lixo-ribeirao-preto/js/app.js:423-424 | The shift and time fields show `-` exactly when their value is missing or is `-` itself. |
| AddressFormat.Street | coleta-lixo-ribeirao-preto/js/app.js:261-268 | The street part is absent exactly when no street key is truthy. |
| AddressFormat.City | coleta-lixo-ribeirao-preto/js/app.js:275 | The city is absent exactly when no city key is truthy and the configured name is empty. A present city is non-empty. |
| AddressFormat.Parts | coleta-lixo-ribeirao-preto/js/app.js:258-276 | There are at most three parts and none is empty. There are none exactly when there is no street, no neighbourhood and no city. |
| AddressFormat.FormatarEnderecoExibicao | coleta-lixo-ribeirao-preto/js/app.js:254-288 | The result is absent exactly when there is no display name and no part, which is the case where the code throws. With parts the result is non-empty. |
| AddressFormat.ConfiguredCityAlwaysShown | coleta-lixo-ribeirao-preto/js/app.js:275-287 | With a non-empty configured city name, the result is present and ends with the city, and the display name is never consulted. |
| AddressFormat.NumberNeedsStreet | coleta-lixo-ribeirao-preto/js/app.js:265-268 | Without a street, changing the house number changes nothing. |
| AddressFormat.FullAddress | coleta-lixo-ribeirao-preto/js/app.js:254-288 | With every part present, the text reads `street, number - neighbourhood - city`. |
| AddressFormat.StreetWithoutNumber | coleta-lixo-ribeirao-preto/js/app.js:265-268 | A street without a house number is shown as the street value alone, with no `, `. |
| AddressFormat.PresentPartsJoined | coleta-lixo-ribeirao-preto/js/app.js:258-287 | For each of the seven non-empty combinations of street, neighbourhood and city, the result is the present parts, in that order, separated by ` - `: street and city give `street - city`, neighbourhood and city give `neighbourhood - city`, one part alone is shown alone. |
| AddressFormat.StreetFirst | coleta-lixo-ribeirao-preto/js/app.js:261-287 | A street, when there is one, begins the result. |
| AddressFormat.FallbackToDisplayName | coleta-lixo-ribeirao-preto/js/app.js:279-285 | Without any part, the result is the shortened display name, `AddressFormat.ShortDisplayName` (the display name split at commas, its first three fields joined with `,` and trimmed), which the two rows below characterise. |
| AddressFormat.ShortDisplayNameFields | coleta-lixo-ribeirao-preto/js/app.js:280-284 | The fallback is the trimmed text before the display name's third comma, or all of it when there are fewer commas. Its comma fields are the display name's first three. |
| AddressFormat.ShortDisplayNameKeepsFewFields | coleta-lixo-ribeirao-preto/js/app.js:280-284 | A display name with at most three comma fields is shown whole, trimmed. |
| Scenario.CentreInside | coleta-lixo-ribeirao-preto/js/app.js:392-406 | The ray from the centre of the square crosses exactly one edge, so the centre is inside. |
| Scenario.SouthOutside | coleta-lixo-ribeirao-preto/js/app.js:392-406 | A point south of every corner of the square is outside it. |
| Scenario.CentreFindsZone | coleta-lixo-ribeirao-preto/js/app.js:353-365 | Looking up the centre of the square returns the square's properties. |
| Scenario.SouthFindsNothing | coleta-lixo-ribeirao-preto/js/app.js:353-365 | Looking up a point south of the square returns nothing. |
| Scenario.TuesdayNightFrequency | coleta-lixo-ribeirao-preto/js/app.js:447-493 | `TERÇA-FEIRA NOTURNO` formats as `Ter`. |
| Scenario.TuesdayNightShift | coleta-lixo-ribeirao-preto/js/app.js:505-510 | The shift read from `TERÇA-FEIRA NOTURNO` is `NOTURNO`. |
| Scenario.TuesdayNightPanel | coleta-lixo-ribeirao-preto/js/app.js:418-424 | Properties holding only `FREQUENCIA: TERÇA-FEIRA NOTURNO` give the panel `Ter`, `Noturno`, `-`. |
| Scenario.NullPropertiesScenario | coleta-lixo-ribeirao-preto/js/app.js:353-365 | A square whose properties are `null` is still the area found, and the panel then reads `Não disponível`, `-`, `-`. |
| Scenario.SquareScenario | coleta-lixo-ribeirao-preto/js/app.js:339-343 | Looking up the square's centre and showing its panel gives `Ter`, `Noturno`, `-`. A point south of the square gives `Não disponível`, `-`, `-`. |

## Left out

- The DOM writes, the map, markers and popups, loading the configuration and the GeoJSON with `fetch`, geocoding and reverse geocoding, browser geolocation, the debounce timer, toasts, the spinner, keyboard navigation and the FAQ. These are input/output and user-interface code. `atualizarResultados` is modelled only as the descriptor for one panel; the page builds two of them and writes the address text as given.
- Floating point: coordinates are exact reals. JavaScript number rounding, `NaN` from `parseFloat`, and the fragile classification of points exactly on an edge are not modelled.
- Malformed GeoJSON (wrong coordinate arity, non-numeric values) and property values that are not strings are ruled out by the types.
- In an `a || b` chain whose operands are all falsy, the code yields the last operand, either `undefined` or `""`. The model yields none for both, because every consumer treats them alike.
- `formatarEnderecoExibicao` with no parts and no `display_name` throws a type error. The model returns none for that case.
- JavaScript strings are UTF-16 code units; the model uses Unicode scalar values. The two differ only outside the Basic Multilingual Plane, which the rules never touch.
- `toUpperCase` is modelled for ASCII, Latin-1, dotless i and long s. `ß` (which becomes `SS`) and other letters are kept unchanged.
- A general regular-expression engine is not modelled, only the patterns the code uses.
- DayLists.FormatsDayList: proves the result only for `/`-separated lists of weekday words. The four documented values are proved one by one in `FrequencyExamples`.
- DayLists.FormatsDayListWithShift: covers a single trailing shift after a space or ` - `. Other placements are covered only by the general cleanliness property.
- Descriptors.Describe: the frequency contract says `-` or clean rather than giving the exact text, which follows from the formatter lemmas.
