# SynCo demo: product lookup and reaction rendering

This project models the demo part of the SynCo Streamlit page (`app.py`). A user
picks a target product by IUPAC name, CAS number or SMILES string. The page
resolves that choice to the IUPAC name that keys the reaction table, selects the
table rows of that product and ranks them by yield, highest first. For each
row it then shows:

- a yield heading;
- a markdown block of five condition lines (temperature, pressure, catalysts,
  solvents, reagents);
- a reaction diagram laid out in six column slots.

Modules:

- `Wrappers`: `Option` and `Result`.
- `Text`: the string operations the page uses:
  - Python's `str.join`, `str.upper`, `str.capitalize` and `str(int)`;
  - `Split`, `ParseInt` and `Between`, which read a rendered text back.
  The reading helpers exist so the rendering can be proved against its inverse.
- `Identifiers`: the fixed `PRODUCT_MAPPING` and the resolution of a selected
  product (`KeyError` on an unknown identifier).
- `Reactions`: the reaction row, the filter on the `name` column, the distinct
  names offered by the form, and the ranking by `yield_value`.
- `Conditions`: `show_conditions` and `get_condition_markdown`.
- `ReactionDiagram`: `show_prediction`.
  - A row without a second reactant draws reactant, arrow and product.
  - A row with one draws reactant, plus, second reactant, arrow and product.
  - Every molecule is captioned with its SMILES string in capitals.
  - The method fills a six-slot array in place.
- `Prediction`: the `show_prediction_results` loop and the form's path from
  "Predict" to the rendered units.

Modelling choices:

- Empty table cells (NaN floats in the data frame) are `None`. This applies to
  the optional columns `reactants_II`, `reactants_II_smiles`, `*_1` and
  `*_1_II`.
- A second reactant whose SMILES cell is empty makes `.upper()` raise. The
  model reports this as `MissingCell("reactants_II_smiles")`. The slots already
  drawn (the reactant and the plus) are kept, and rendering stops there.
- `temperature_1` is a `real`, the exact value of the float. `int()`
  truncates it toward zero, and the model does so explicitly.
- `pressure_1` is kept as the text its cell formats to.
- `yield_value` is an integer.

Two consequences of the code are worth stating:

- The ranking uses `sort_values` with its default, non-stable sort kind, so
  rows with equal yields may appear in any order. The model promises only a
  permutation with non-increasing yields. It proves (`RankedYieldsAgree`) that
  the column of yields is the same for every such order.
- A product with no rows renders nothing; the code shows no "no reactions
  found" message.

## Model

| member | source | states |
|---|---|---|
| Identifiers.ProductMappingOneToOne | app.py:10-25 | the CAS table and the SMILES table each map their five identifiers one-to-one onto the same five IUPAC names |
| Identifiers.CasNumbersOneToOne | app.py:11-17 | the five CAS numbers reach exactly the five names, no two the same name |
| Identifiers.SmilesOneToOne | app.py:18-24 | the five SMILES strings reach exactly the five names, no two the same name |
| Identifiers.EachNameHasOneIdentifier | app.py:10-25 | for CAS and for SMILES, each of the five names is the resolution of exactly one identifier |
| Identifiers.Resolve | app.py:301-307 | an IUPAC name resolves to itself; any other selection succeeds exactly when its scheme and identifier are in the mapping, yields `mapping[scheme][value]`, and otherwise fails with the KeyError of the missing key |
| Identifiers.ResolveProductMapping | app.py:301-307 | with the fixed mapping, a CAS or SMILES value resolves exactly when its table lists it, to the name that table gives it, which is one of the five names, and otherwise fails with KeyError of that value |
| Identifiers.ResolveExample | app.py:301-307 | CAS number "119-61-9" resolves to "Diphenyl ketone", SMILES "CC1CCCC(C)C1O" to "2,6-Dimethylphenol", an IUPAC name to itself, and the unlisted "50-00-0" fails with KeyError("50-00-0") |
| Reactions.OfferedNamesAreTableNames | app.py:300 | `unique()` of the `name` column offers a name if and only if some row of the table carries it |
| Reactions.Unique | app.py:300 | the offered names are exactly the table's names, each at most once |
| Reactions.FilterByName | app.py:334 | the selected rows are exactly the rows named after the product, each with its multiplicity in the table |
| Reactions.FilterSelectsExactly | app.py:334 | a row is selected if and only if it is in the table and carries the product's name |
| Reactions.OfferedNameSelectsRows | app.py:300-334 | every IUPAC name the selector offers selects at least one row |
| Reactions.InsertByYield | app.py:404 | inserting a row into a ranked list keeps it ranked and adds exactly that row |
| Reactions.SortByYield | app.py:404 | the ranking is a permutation of the rows whose yields never increase |
| Reactions.RemoveKeepsSorted | app.py:404 | removing one row from a ranking leaves a ranking of the remaining rows |
| Reactions.TopYieldsAgree | app.py:404 | two rankings of the same rows start with the same yield |
| Reactions.DropTopShiftsYields | app.py:404 | removing a top-yield row from a ranking shifts the later yields one place up |
| Reactions.RankedYieldsAgree | app.py:404 | any two rankings of the same rows have the same length and the same yield at every position, whatever order the ties take |
| Reactions.RankingExample | app.py:404 | rows with yields 45, 90, 67 are ranked with yields 90, 67, 45 |
| Text.ToUpper | app.py:419 | `.upper()`: same length, no small letter left, each character unchanged or raised to its capital |
| Text.ToLower | app.py:463 | the lowering half of `.capitalize()`: same length, no capital left, each character unchanged or lowered |
| Text.Capitalize | app.py:463 | `.capitalize()`: same length; the first character is kept or, if a small letter, raised to its capital; every later character is kept or, if a capital, lowered |
| Text.CapitalizeLowerWord | app.py:463 | capitalising a word with no capitals only raises its first character |
| Text.SplitJoin | app.py:464 | `Split` undoes `Join` (`sep.join(parts)`): the join splits back into `parts` when no part contains the separator |
| Text.JoinSplit | app.py:449 | `Join` undoes `Split`: joining the pieces of a split text with the same separator rebuilds the text |
| Text.SplitJoinAtChar | app.py:449 | splitting at a one-character separator undoes joining at it when no part contains that character |
| Text.JoinAvoids | app.py:464 | a character absent from the separator and all parts is absent from their join |
| Text.NatToDecimal | app.py:407 | `str(n)` for a natural number is a non-empty run of digits that starts with "0" only for zero |
| Text.IntToDecimal | app.py:443 | `str(n)`: only digits and the minus sign; a leading '-' exactly when `n` is negative; after it a non-empty run of digits that starts with '0' only for zero, and is exactly "0" for zero |
| Text.DecimalRoundTrip | app.py:407 | the digits `str(n)` writes denote `n` |
| Text.ParseIntRoundTrip | app.py:443 | reading back what `str(n)` writes gives `n` for every integer |
| Conditions.TruncateTowardZero | app.py:443 | `int(x)`: the integer part of `x`, below `x` for positives and above it for negatives, less than one away |
| Conditions.TemperatureLineReadsBack | app.py:443 | `TemperatureLine` shows the cell's value truncated toward zero, between "* **Temperature**: " and " °C" |
| Conditions.PressureLineReadsBack | app.py:444 | `PressureLine` shows the pressure cell between "* **Pressure**: " and " MPa" |
| Conditions.ConditionsExample | app.py:443-444 | 80.7 degrees shows as "* **Temperature**: 80 °C" and pressure "1.0" as "* **Pressure**: 1.0 MPa" |
| Conditions.PresentKeepsFilledCells | app.py:457-459 | `Present`, the comprehension that drops empty cells: a value is kept if and only if a cell holds it, and it is kept as many times as cells hold it |
| Conditions.PresentOfConcat | app.py:457-459 | the comprehension keeps cell order: filtering two runs of cells one after the other gives the two filtered runs one after the other |
| Conditions.PresentOfPair | app.py:453-459 | the two cells `<type>_1`, `<type>_1_II` keep their order when filtered, case by case |
| Conditions.SubstanceLabelRaisesInitial | app.py:463 | a type's label is its name with only the first letter raised to a capital |
| Conditions.SubstanceLabels | app.py:463 | the labels are "Catalysts", "Solvents" and "Reagents" |
| Conditions.SubstanceLineCases | app.py:452-465 | `SubstanceLine` (`get_condition_markdown`): no substance gives "-", one gives that value, two give `<type>_1` then `<type>_1_II` joined by ", ", after the capitalised label |
| Conditions.SubstanceLineReadsBack | app.py:460-465 | when no value contains ", ", the line after its label splits back into exactly the listed items |
| Conditions.TemperatureLineHasNoBreak | app.py:443 | the temperature line contains no line break |
| Conditions.SubstanceLineHasNoBreak | app.py:462-465 | a substance line has no line break when its values have none |
| Conditions.ConditionLinesOrder | app.py:442-448 | `ConditionLines`, the list `show_conditions` builds: five lines, opening with Temperature, Pressure, Catalysts, Solvents and Reagents in that order |
| Conditions.ConditionLinesHaveNoBreak | app.py:442-448 | none of the five lines contains a line break when no shown cell does |
| Conditions.ConditionsBlockReadsBack | app.py:449 | `ConditionsMarkdown` (`'\n'.join(conditions)`): splitting it at "\n" gives back the five lines whenever no shown cell contains a line break |
| ReactionDiagram.Diagram | app.py:421-432 | the diagram fails exactly when the row has a second reactant without a SMILES string |
| ReactionDiagram.DiagramShape | app.py:414-438 | without a second reactant: reactant, arrow, product; with one: reactant, plus, second reactant, arrow, product |
| ReactionDiagram.ColumnsLayout | app.py:415-438 | `Columns`, the six slots once drawing stopped: filled left to right with the diagram and then empty; after the failure only reactant and plus are drawn |
| ReactionDiagram.ShowPrediction | app.py:414-438 | the six-slot array ends as the diagram's slots, and an interruption is reported exactly when the diagram fails |
| ReactionDiagram.CaptionsAreUpperSmiles | app.py:417-437 | every molecule is captioned with its own SMILES in capitals; only arrow and plus carry no caption |
| Prediction.YieldHeadingReadsBack | app.py:406-408 | `YieldHeading` shows the row's yield between "**Yield**: " and "%" |
| Prediction.UnitReadsBack | app.py:406-410 | `UnitOf`, one pass of the loop: its heading reads back as the yield, its markdown splits back into the five condition lines when no shown cell has a line break, and it has six slots |
| Prediction.ShowPredictionResults | app.py:403-411 | renders a non-increasing permutation of the rows in order, one unit (heading, conditions, diagram) per row, stopping right after the first interrupted diagram |
| Prediction.RenderRanked | app.py:405-411 | the loop renders the ranked rows in order, one unit per row, and stops right after the first row whose diagram is interrupted, reporting that row's error; without an interruption every row is rendered |
| Prediction.ShowReaction | app.py:406-410 | one pass of the loop yields the row's heading, conditions block and slots, and reports an interruption exactly when the row's diagram cannot be drawn |
| Prediction.HeadingsShowRankedYields | app.py:404-408 | the yields read from the headings never increase down the page |
| Prediction.Predict | app.py:292-335 | an unresolvable selection is rejected with its KeyError; otherwise the rendered rows are the ranking of exactly the product's rows |
| Prediction.OfferedValuesResolve | app.py:300-307 | every value the selector offers resolves, and an offered IUPAC name always has rows |
| Prediction.OfferedValuesFindRows | app.py:300-334 | when the table holds rows for all five mapped names, every offered value finds rows |
| Prediction.RenderedRowsAreTheProducts | app.py:333-335 | a row is among those rendered if and only if it is in the table and named after the product |

## Left out

- Streamlit itself is not modelled. That covers page layout, HTML and CSS
  snippets, widgets, the separators between units, and the header,
  description and contact sections.
  - The form's selections are parameters of `Predict`.
  - `Offered` describes which values the selectors can hold.
- `load_data`, `load_image` and `load_image_bytes` read files and are not
  modelled. Diagram elements carry the image stem instead of the picture, so
  a missing image file is not modelled either.
- Caching (`st.cache_data`) does not change results and is not modelled.
- The progress bar, its `time.sleep` delays and the placeholders shown during
  the delay are timing effects only.
- The order in which the selector lists CAS numbers and SMILES strings (dictionary
  key order) is not modelled.
- `reactants`, `reactants_smiles`, `products`, `products_smiles`,
  `pressure_1` and `yield_value` are taken as always filled. An empty cell there
  would raise or print `nan`.
- Reactions.Unique: states membership and the absence of repeats, not that names keep the order of their first appearance.
- Text.ToUpper: maps ASCII letters only; Python's `str.upper` also maps other Unicode letters, which SMILES strings do not use.
- Text.ToLower: maps ASCII letters only, like `Text.ToUpper`.
- Text.Capitalize: ASCII only, like `Text.ToUpper`. The substance type names it is applied to are ASCII.
- Conditions.TruncateTowardZero: real numbers only; `int()` of a NaN or infinite temperature raises, and that path is not modelled.
- Prediction.YieldHeadingReadsBack: the yield is an integer. A float yield column would print as, for example, "90.0%", and float formatting is not modelled.
- Conditions.PressureLine shows the pressure cell as its text. The float-to-text formatting of that cell is not modelled.
