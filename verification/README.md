# IFPSM member map: a Dafny model of the directory and its exports

This project models the core of the IFPSM member map, a single-page application. The application keeps a bilingual (Chinese/English) directory of member associations. It shows them on a world map, lets an administrator edit them, and exports a slide deck and a PDF report.

The model covers:

- **Directory transitions** (`DataContext`): adding, deleting and updating members; rewriting one field by path; adding a custom field; the initial display settings; the language switch.
- **Export selection and assembly** (`ExportSystem`):
  - the confirmed-value gate and the category/type filter;
  - the date stamp and the file names;
  - the clamped map projection and the marker colours;
  - the region sections in fixed order, and the table rows;
  - the PDF layout cursor with its page breaks.

  Each document is modelled as plain data: a cover, markers, and sections holding rows.
- **View-side selection** (`AppView`): the on-screen filter, the region switches, and previous/next navigation. It also states which list the export buttons hand over.
- **Legend counters** (`Legend`).
- **Editor helpers** (`AdminEditor`): the search filter, selecting a member into the form, the new-member skeleton, saving the form, and adding or removing custom fields.
- **Seed data** (`Constants`, `SeedData`): the `field` and `initMember` constructors, and the forty-member seed directory.

`Types` holds the record types. `Seqs` and `Text` hold the sequence and string operations the rest relies on: order-preserving filtering, counting, decimal rendering, padding, lower-casing and substring search.

Every transition is a pure function from the old directory to the new one. The following become parameters:

- the browser clock;
- `Math.random()` ids;
- the outcomes of `confirm`/`prompt`;
- the Mercator ordinate `ln(tan(...))`;
- the height at which the table library finishes a table.

Behaviours of the code worth knowing, which the model keeps:

- `updateFieldInfo`:
  - does not append the old value to `history`;
  - silently leaves the directory unchanged for an unknown member, an unknown path head or an unknown custom-field id, rather than failing;
  - with an unknown `basicFacts` key, it adds that key.
- `deleteMember`, `updateMember` and `addCustomField` do nothing for an unknown id rather than failing.
- The on-screen region filter applies to corporate members as well.
- The export filter always drops inactive members, whatever `showActiveOnly` says.
- The PDF report is English whatever language is requested: title, headings and every cell.
- The editor's form is the record as it was when selected. Saving it undoes field edits made through `updateFieldInfo` in between, and it drops a custom field just added to a member that already had a custom-field list. A member without such a list keeps the new field, because its form has no list to spread.
- Each export runs the filter itself rather than sharing one intermediate. The model proves both exports select and order the same sections and rows (`ExportSystem.PdfMatchesEnglishDeck`).

## Model

| member | source | states |
|---|---|---|
| Types.EnumerationsClosed | types.ts:2-5 | Region, MemberType, ActiveStatus, VerificationStatus (and Language, line 87) have exactly 4, 2, 2, 3 and 2 distinct values, each listed |
| Constants.FieldOf | constants.ts:92-94 | `field` is always confirmed; the English value is the Chinese one when omitted or empty, the given one otherwise |
| Constants.InitMember | constants.ts:96-107 | `initMember` gives an active association of the given id, abbreviation, region and coordinates, type defaulting to Member, every fixed field confirmed, member and staff scale confirmed empty strings, one contact email and the federation website |
| Constants.NumberRows | constants.ts:109-150 | numbering rows gives the k-th row (from 0) the id `m<k+1>` and its listed member type |
| Constants.SeedIdInjective | constants.ts:109-150 | distinct positions get distinct `m<k>` ids |
| Constants.BuildDirectoryFacts | constants.ts:96-150 | for any rows, the built directory numbers ids m1, m2, ... in order without repeats, every member has the seed shape, and affiliates sit exactly where the type list says Affiliate |
| SeedData.SeedTypesListed | constants.ts:109-150 | the seed lists forty rows and only those of m33 and m40 name a member type, Affiliate |
| SeedData.SeedCount | constants.ts:109-150 | the seed directory has forty members |
| SeedData.SeedIds | constants.ts:109-150 | seed ids are m1..m40 in order and pairwise distinct |
| SeedData.SeedShapes | constants.ts:96-150 | every seed member is an active association with confirmed fixed fields, confirmed empty scales, no custom fields and one email |
| SeedData.SeedAffiliates | constants.ts:142-149 | m33 and m40 are the only affiliates of the seed |
| DataContext.AddMember | contexts/DataContext.tsx:48 | the new member is at index 0 and the previous directory is the unchanged tail |
| DataContext.DeleteMember | contexts/DataContext.tsx:49-51 | declined: unchanged; confirmed: no member with the id remains, the rest keep their relative order, every other member survives, length drops by the number of matches |
| DataContext.DeleteAfterAdd | contexts/DataContext.tsx:48-51 | deleting a freshly added member whose id was new restores the directory |
| DataContext.DeleteIdempotent | contexts/DataContext.tsx:49-51 | deleting twice equals deleting once |
| DataContext.Apply | contexts/DataContext.tsx:54 | for each of the 19 attributes, the result holds the patch's value when the patch supplies it and the member's own value when the patch omits it |
| DataContext.ApplyLaws | contexts/DataContext.tsx:54 | the empty patch changes nothing; a spread record replaces the member except for the optional attributes the record lacks, which the member keeps; a record spread over itself is itself; spreading is idempotent; two spreads equal one spread of the merged patch |
| DataContext.WholeRecord | components/AdminEditor.tsx:98 | the form made from a record supplies its id, overview and facts, and supplies an optional attribute (custom fields, notes, auto-update flag) exactly when the record holds it |
| DataContext.UpdateMember | contexts/DataContext.tsx:53-55 | length and every non-matching member unchanged; each matching member has the patch spread over it |
| DataContext.UpdateUnknownMember | contexts/DataContext.tsx:53-55 | an update naming no member leaves the directory unchanged |
| DataContext.UpdateMemberTwice | contexts/DataContext.tsx:53-55 | two updates of one member compose into one update with the merged patch, when the first keeps the id |
| DataContext.ParsePath | contexts/DataContext.tsx:61-67 | the path head selects overview, a basicFacts key (`"undefined"` when missing), a custom-field id (none when missing), or nothing |
| DataContext.SetValue | contexts/DataContext.tsx:61 | the rewritten field has the new value pair and status and keeps source, timestamp, auto-update flag and history (no history append) |
| DataContext.SetFact | contexts/DataContext.tsx:62-65 | only the fact under the key is rewritten, an unknown key gains a bare field, every other key is unchanged |
| DataContext.SetCustom | contexts/DataContext.tsx:66-69 | an absent list stays absent; entries with the id are rewritten, the others and all ids and labels unchanged |
| DataContext.UpdateFieldOf | contexts/DataContext.tsx:58-71 | each path kind changes only its attribute of the member; no path leaves it unchanged |
| DataContext.UpdateFieldInfo | contexts/DataContext.tsx:57-72 | length and ids unchanged; members with other ids unchanged; each member carrying the id is rewritten under the parsed path |
| DataContext.UpdateFieldInfoIdempotent | contexts/DataContext.tsx:57-72 | applying the same field update twice equals applying it once |
| DataContext.UpdateOverviewOnly | contexts/DataContext.tsx:61 | on the addressed member, the overview gets the new value pair and status with provenance kept, and nothing else changes |
| DataContext.UpdateFactOnly | contexts/DataContext.tsx:62-65 | on the addressed member, only basicFacts changes, only under the key, with provenance kept |
| DataContext.UpdateCustomOnly | contexts/DataContext.tsx:66-69 | on the addressed member, only the custom fields with the id change; an absent list stays absent |
| DataContext.UpdateFieldInfoNoOps | contexts/DataContext.tsx:59-70 | an unknown member id, an unknown path head, or a custom-field id no field carries leaves the directory equal |
| DataContext.NewCustomField | contexts/DataContext.tsx:77-80 | the new custom field has the given labels, empty values and status pending |
| DataContext.AddCustomField | contexts/DataContext.tsx:74-82 | only matching members change, only in customFields, which gain exactly one entry at the end after the old list (absent counts as empty) |
| DataContext.InitialSettingsOpen | contexts/DataContext.tsx:27-34 | the initial settings allow every region and type, open all three category gates, and show inactive members |
| DataContext.ToggleLanguage | contexts/DataContext.tsx:89 | the toggle always yields the other language |
| DataContext.ToggleLanguageInvolution | contexts/DataContext.tsx:89 | toggling twice returns the starting language |
| ExportSystem.GetConfirmedValue | utils/exportSystem.ts:8-12 | confirmed fields give the value in the requested language; pending and auto give "" |
| ExportSystem.ExportEligible | utils/exportSystem.ts:15-21 | a member passes iff it is active and its gate is open: corporate by showCorporate, association Member by showAssociation, association Affiliate by showAffiliate |
| ExportSystem.GetFilteredMembers | utils/exportSystem.ts:14-22 | an order-preserving subsequence holding exactly the active members with open gates, as many as the directory holds (repeats included) |
| ExportSystem.ExportIgnoresViewSettings | utils/exportSystem.ts:14-22 | settings agreeing on the three gates select the same members, whatever allowedRegions, allowedTypes and showActiveOnly are |
| ExportSystem.FormatDateReadsBack | utils/exportSystem.ts:24-27 | for a four-digit year the stamp is 10 characters `YYYY-MM-DD` whose parts read back as year, month and day |
| ExportSystem.FormatDateInjective | utils/exportSystem.ts:24-27 | distinct dates with four-digit years give distinct stamps |
| ExportSystem.PptxFileName | utils/exportSystem.ts:106 | the deck name is `IFPSM_Members_`, the date, `.pptx` |
| ExportSystem.PdfFileName | utils/exportSystem.ts:154 | the report name is `IFPSM_Members_`, the date, `.pdf` |
| ExportSystem.FileNamesDistinguish | utils/exportSystem.ts:106-154 | each file name determines its date, and no deck name equals a report name |
| ExportSystem.ExportNamesIdentifyDate | utils/exportSystem.ts:106-154 | for four-digit years, the exported names are the stem, a 10-character `formatDate` stamp and the extension, and equal names mean equal dates |
| ExportSystem.Clamp01 | utils/exportSystem.ts:35-36 | the result lies in [0, 1], equals values already inside, and clips values outside to the nearer bound |
| ExportSystem.LatLngToXY | utils/exportSystem.ts:29-38 | both coordinates lie in [0, 1]; within range x is (lng + 180) / 360 and y the projected ordinate |
| ExportSystem.ProjectorSamples | utils/exportSystem.ts:29-38 | (0, 0) projects to (0.5, 0.5) and (0, -180) to (0, 0.5) when the projection puts the equator mid-image |
| ExportSystem.MarkerColour | utils/exportSystem.ts:62-65 | corporate `7C3AED`, else affiliate `475569`, else the region fill without `#` |
| ExportSystem.MarkerFor | utils/exportSystem.ts:59-70 | a 0.1 by 0.1 marker centred on the member's projected point (0.5 + 8.9 x, 1.2 + 5 y), which lies inside the map image, coloured by MarkerColour |
| ExportSystem.Markers | utils/exportSystem.ts:58-71 | one marker per selected member, corporate included, in order |
| ExportSystem.RegionMembers | utils/exportSystem.ts:76 | a region section lists, in order and with their multiplicity, exactly the selected associations of that region |
| ExportSystem.RegionGroups | utils/exportSystem.ts:74-77 | at most four sections, strictly in the order Europe, AsiaPacific, Americas, Africa, one exactly for each region with a selected association, never empty |
| ExportSystem.PptxRow | utils/exportSystem.ts:83-88 | row = abbreviation, name and country in the deck language, confirmed member scale in that language |
| ExportSystem.PdfRow | utils/exportSystem.ts:135-140 | row = abbreviation, English name, English country, confirmed English member scale |
| ExportSystem.SlideFor | utils/exportSystem.ts:79-103 | a region slide has one row per section member, in order |
| ExportSystem.GeneratePptx | utils/exportSystem.ts:40-107 | the deck's markers and region slides come from the gated selection; the cover line is the localised `Date: ` and `formatDate` of the clock, the file name `IFPSM_Members_` with `formatDate` of the clock and `.pptx` |
| ExportSystem.DeckOrder | utils/exportSystem.ts:58-104 | the deck has one marker per selected member and its region slides strictly in the fixed region order |
| ExportSystem.DeckCoverage | utils/exportSystem.ts:74-104 | a region slide exists exactly for each region with a selected association, with one row per such member |
| ExportSystem.NextCursor | utils/exportSystem.ts:147-151 | the cursor after a table is finalY + 20 while that stays within 250, and 20 (a new page) once it passes 250; it never exceeds 250 |
| ExportSystem.CursorBefore | utils/exportSystem.ts:121-151 | the cursor before each section is at most 250, starting at 70 |
| ExportSystem.PdfLayoutBounds | utils/exportSystem.ts:121-151 | first heading at 70; every heading at most 250 with its table 10 below; each next heading 20 below the previous table, or at 20 after a page break, which happens exactly when that would pass 250 |
| ExportSystem.LayoutPdf | utils/exportSystem.ts:120-152 | the single running-cursor pass produces exactly the reference sections, with the final cursor at most 250 |
| ExportSystem.GeneratePdf | utils/exportSystem.ts:109-155 | title "Global Members Report" in both languages, `Generated: ` with `formatDate` of the clock, the laid-out region sections, the file name `IFPSM_Members_` with `formatDate` of the clock and `.pdf` |
| ExportSystem.PdfIgnoresLanguage | utils/exportSystem.ts:115-140 | the report is the same document whichever language is asked for |
| ExportSystem.PdfMatchesEnglishDeck | utils/exportSystem.ts:74-140 | the report's sections have the English deck's headings, headers and rows, in the same order |
| ExportSystem.OneEuropeanMember | utils/exportSystem.ts:14-140 | one active European association and one inactive affiliate give exactly one exported member and one `Europe` section whose row carries the confirmed scale |
| ExportSystem.EligibleMemberExported | utils/exportSystem.ts:41-140 | every directory member passing the export test has its marker on the deck's map; an association also has its row on its region's slide and in its region's report section |
| AppView.Shown | App.tsx:72-76 | a member is shown iff (active-only off or it is active) and its region is allowed |
| AppView.FilteredMembers | App.tsx:71-77 | an order-preserving subsequence holding exactly the shown members, as many as the directory holds (repeats included) |
| AppView.ViewIgnoresCategoryGates | App.tsx:71-77 | the view does not read the category gates or allowed types |
| AppView.ViewKeepsIdsDistinct | App.tsx:71-77 | distinct ids in the directory stay distinct in the view |
| AppView.ToggleRegion | App.tsx:19-22 | the toggled region flips membership (removed from the list, or appended at its end); every other region keeps its membership |
| AppView.ToggleRegionOnOff | App.tsx:19-22 | switching an absent region on and off restores the list exactly |
| AppView.ToggleRegionOffOn | App.tsx:19-22 | switching a present region off and on keeps the same regions and moves it last |
| AppView.ToggleRegionBounded | App.tsx:19-33 | a repetition-free list stays repetition-free and at most four long |
| AppView.FindIndex | App.tsx:80 | the first position carrying the id, or -1 exactly when none does |
| AppView.CurrentIndex | App.tsx:79-81 | -1 with no selection or when its id is not shown; otherwise a position carrying the selected id |
| AppView.HandlePrev | App.tsx:83-87 | the selection stays, or becomes a shown member; it stays when at index 0 or unselected |
| AppView.HandleNext | App.tsx:89-93 | the selection stays, or becomes a shown member; it stays at the last index |
| AppView.StepsMoveByOne | App.tsx:83-93 | with distinct ids, previous lowers the index by one and next raises it by one whenever a neighbour exists |
| AppView.StepFromNothing | App.tsx:79-93 | with nothing selected, next selects the first shown member and previous does nothing |
| AppView.NextThenPrev | App.tsx:83-93 | next then previous returns to the member at the starting index |
| AppView.ExportPptxClicked | App.tsx:116 | the deck button builds the deck from the whole directory's gated selection, not the shown list, names it by `formatDate`, and closes the menu |
| AppView.ExportPdfClicked | App.tsx:117 | the report button lays out the sections of the whole directory's gated selection, names it by `formatDate`, and closes the menu |
| AppView.ExportsSeeHiddenMembers | App.tsx:116-117 | for every directory, a member hidden by the view but passing the export test gets its marker in the exported deck, and an association its rows in the deck and the report |
| AppView.ViewAndExportDiffer | App.tsx:116-117 | for every directory member: exported yet hidden on screen exactly when it passes the export test and its region is switched off |
| AppView.HiddenYetExportedExample | App.tsx:116-117 | an active association in a switched-off region is hidden on screen yet exported, so the case above occurs |
| Legend.Tally | components/Legend.tsx:16-18 | a counted member raises its region's entry by one (from 0 when missing); nothing else changes |
| Legend.RegionCountsCorrect | components/Legend.tsx:15-20 | a region has an entry iff some member counts for it, and the displayed figure (0 when missing) is the number of active association Members there |
| Legend.AffiliateCount | components/Legend.tsx:22 | the number of active Affiliates, any category or region |
| Legend.LegendIgnoresInactive | components/Legend.tsx:15-22 | dropping inactive members changes no legend figure |
| Legend.LegendTotalBounded | components/Legend.tsx:15-22 | the four region figures plus the affiliate figure are at most the directory length |
| AdminEditor.SearchFilter | components/AdminEditor.tsx:25 | an order-preserving subsequence holding exactly the members whose lower-cased abbreviation contains the lower-cased term or whose Chinese name contains the term, as many as the directory holds |
| AdminEditor.EmptySearchKeepsAll | components/AdminEditor.tsx:25 | the empty term lists every member |
| AdminEditor.SearchFindsAbbreviation | components/AdminEditor.tsx:25 | a term equal to an abbreviation up to case lists that member |
| AdminEditor.SkeletonId | components/AdminEditor.tsx:39 | the new id starts with `m-` |
| AdminEditor.NewMemberSkeleton | components/AdminEditor.tsx:38-62 | an active association of type Member in Europe at (0, 0), overview and the four facts empty and pending, empty pending tag lists, no custom fields, no emails |
| AdminEditor.SkeletonIdNotSeed | components/AdminEditor.tsx:39 | a created member's id never equals a seed id `m<k>` |
| AdminEditor.HandleSelect | components/AdminEditor.tsx:98 | clicking a member makes its id the editing target and the record the form, which spread over the member gives it back and omits a custom-field list the member lacks |
| AdminEditor.HandleCreateNew | components/AdminEditor.tsx:63-65 | the skeleton lands at the head of the directory and is selected exactly as a click on it would select it |
| AdminEditor.HandleSave | components/AdminEditor.tsx:68-73 | without an editing id nothing changes; with one, the form is spread over the matching members and editing ends |
| AdminEditor.CreateThenSave | components/AdminEditor.tsx:38-73 | saving an untouched new member leaves the directory as creation left it |
| AdminEditor.SaveRevertsFieldEdits | components/AdminEditor.tsx:68-73 | saving the form after an overview edit through updateFieldInfo restores the directory as it was before the edit |
| AdminEditor.AddCustomFieldGuarded | components/AdminEditor.tsx:194-198 | a custom field is added only when both labels are non-empty and a member is being edited; otherwise nothing changes |
| AdminEditor.AddFieldThenSave | components/AdminEditor.tsx:194-198 | select, add a custom field, save: a member without a custom-field list keeps exactly the new field; one with a list gets its old list back from the form; nothing else of it changes |
| AdminEditor.RemoveFormCustomField | components/AdminEditor.tsx:230 | only the form's customFields changes: entries with the id are gone, the others kept in order |
| AdminEditor.RemoveUndoesAdd | components/AdminEditor.tsx:230 | removing the just-added custom field from the member's form gives back its previous list |

## Left out

- React rendering, styling, hover state, `useMemo`/`useCallback` and the mobile layout: presentation only.
- The map widget, the information drawer and the detail card: display-only wrappers, not part of this model.
- The detail card's `onClose`, the filter panel's open state, and the `showActiveOnly` switch: each is a single flag assignment.
- `toggleAdminMode` and `resetToDefaults`: a flag flip, and a reload of the seed behind a confirmation.
- The editor's other form edits, the logo upload through `FileReader`, and its delete button: the last calls `deleteMember`, which is modelled.
- localStorage loading and saving, JSON parse/stringify: persistence I/O.
- `confirm`, `prompt`, the file dialogs, and pptxgenjs/jsPDF/autoTable drawing calls: browser and library I/O. Their outcomes are inputs, and documents are plain data.
- The `news` attribute of a member: no modelled operation reads or writes it.
- JavaScript prototype keys such as `toString` used as `basicFacts` keys: property lookup through the prototype chain is not modelled.
- A patch attribute present with value `undefined`: a patch can express it and it overrides like any supplied value, but no form the editor builds holds one, since a form omits what its record lacks.
- Floating point: coordinates and layout positions are exact reals. `NaN` from `parseFloat` is not modelled.
- ExportSystem.LatLngToXY: the Mercator ordinate is a parameter `mercatorY`; its logarithm and tangent are not computed.
- ExportSystem.FormatDateReadsBack: proved only for four-digit years; the clock's year is an input.
- DataContext.AddCustomField: one `fid` for every matching member, whereas the source draws a fresh random id per matching member (identical only when a single member carries the id).
- Text.ToLowerChar: lower-cases Basic Latin and Latin-1 letters only, not the full Unicode case mapping of `toLowerCase`.
- ExportSystem.GeneratePptx: slide geometry, fonts, colours and `autoPage` table splitting are library layout, not modelled; only content and order are.
- ExportSystem.GeneratePdf: the table heights come from the parameter `tableEnd`, standing for `lastAutoTable.finalY`.
