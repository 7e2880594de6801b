# GenerateORM, modelled in Dafny

This project models the `GenerateORM` console command of the PHPixie
Framework-Bundle. The command scaffolds the ORM layer of a project bundle:
- It writes three wrapper classes for a model into the bundle's `src/ORM/<Model>/` directory: Repository, Entity and Query. Each comes from a template whose `NS` and `BUNDLE` tokens it substitutes.
- It registers the model in the bundle's ORM configuration `assets/config/orm.php`, inserting at `/*modelGeneratorPlaceholder*/`.
- It registers the three classes in the bundle's `src/ORM.php`, inserting at the entity, repository and query marker comments.
- Every patched document is passed through `prettifyText` before it is written.

The project has one module per layer:

| file | module | what it holds |
|---|---|---|
| `php.dfy` | `Php` | The PHP built-ins the command relies on: `str_replace` (left to right, non-overlapping), `strpos` and the `!strpos(...)` guard, `explode`, ASCII `strtolower`/`ucfirst`/`lcfirst`, and the falsy strings of `empty()`. Each comes with its laws. |
| `prettify.dfy` | `Prettify` | `prettifyText`: whitespace before a comma is deleted, then `(,` becomes `(`. |
| `files.dfy` | `Files` | The filesystem as directories plus a map from path to text, with a log of actions. The class `FileSystem` holds that state and updates it in place. |
| `orm.dfy` | `Orm` | The specification of every operation of the command: the text patches and the effect on the filesystem, with the error that stops it. |
| `orm_props.dfy` | `OrmProps` | Properties of the text patches: markers, insertion, idempotence. |
| `effect_props.dfy` | `EffectProps` | Properties of the effects: when generation succeeds, what it writes and in which order, what it leaves alone, and how `make` and `run` compose the steps. |
| `command.dfy` | `Command` | The command as a class `GenerateOrm` with the fields `overwrite` and `bundle`. Its methods change the `FileSystem` object step by step, as the PHP methods do, and each is proved to reach the state and status the `Orm` functions describe. |

Conventions of the model:
- A thrown `CommandException` is a `Fail(error)` status, and the command stops there. The effects made before the failure stay.
- A file that does not exist reads as "", which is the string PHP makes of `false`.
- Paths are either in the bundle's root or in the framework's assets (the templates).

Behaviours of the code the model keeps:
- Registration keys are `lcfirst(name)` (`GenerateORM.php:170`), not the lower-cased name.
- The configuration lookup in `make` uses `strtolower(name)` (`GenerateORM.php:112`).
- The `-a` loop enumerates the models of the bundle's ORM configuration as the builder returns it. Model definitions written during the run are not read back.
- The duplicate guards are `!strpos(...)`, so a match at the very start of the document counts as absent.
- `registerModel` checks for the name in both single and double quotes.
- The Query entry is followed by `/*repositoryGeneratorPlaceholder*/`, not by the query marker (`GenerateORM.php:184`). The model reproduces this, with two consequences.
  - `OrmProps.QueryMarkerConsumed`: the query marker is gone after one registration, so later models get no Query entry.
  - `OrmProps.RepositoryEntryDoubled`: the document now holds two repository markers, so the Repository entry of every later model is inserted twice, once in the repository table and once in the query table.
- `registerClasses` writes the document back even when nothing was inserted.

## Model

Source paths are relative to the repository root.

| member | source | states |
|---|---|---|
| Php.ReplaceAbsent | src/PHPixie/FrameworkBundle/Console/GenerateORM.php:178 | `str_replace` leaves a text in which the search string does not occur unchanged |
| Php.ReplaceBySelf | src/PHPixie/FrameworkBundle/Console/GenerateORM.php:178 | replacing a string by itself changes nothing |
| Php.ReplaceShrinks | src/PHPixie/FrameworkBundle/Console/GenerateORM.php:213 | a replacement no longer than the search string never lengthens the text |
| Php.ReplaceUnique | src/PHPixie/FrameworkBundle/Console/GenerateORM.php:207 | where the search string occurs exactly once, the result is the text with that one occurrence replaced |
| Php.ReplaceEmits | src/PHPixie/FrameworkBundle/Console/GenerateORM.php:178 | when the search string occurs, the replacement occurs in the result |
| Php.ReplaceConcat | src/PHPixie/FrameworkBundle/Console/GenerateORM.php:178 | replacing in `a + b` is replacing in `a` and in `b` separately when no occurrence straddles the seam |
| Php.ReplaceAround | src/PHPixie/FrameworkBundle/Console/GenerateORM.php:178 | the same for a text cut in three parts |
| Php.ReplaceKeeps | src/PHPixie/FrameworkBundle/Console/GenerateORM.php:178 | an occurrence of a string that shares no first character with the search string survives the replacement |
| Php.ReplaceHead | src/PHPixie/FrameworkBundle/Console/GenerateORM.php:213 | the first character survives when it cannot start a match, or the replacement starts with it |
| Php.ReplaceWhole | src/PHPixie/FrameworkBundle/Console/GenerateORM.php:163 | a text that is exactly the search string becomes exactly the replacement |
| Php.ReplaceFront | src/PHPixie/FrameworkBundle/Console/GenerateORM.php:178 | the result starts with the text's first character or the replacement's |
| Php.ReplaceBack | src/PHPixie/FrameworkBundle/Console/GenerateORM.php:178 | the result ends with the text's last character or the replacement's |
| Php.FindFrom | src/PHPixie/FrameworkBundle/Console/GenerateORM.php:177 | the search from an offset finds the first occurrence at or after it, or reports none when there is none |
| Php.StrPos | src/PHPixie/FrameworkBundle/Console/GenerateORM.php:177 | `strpos` is absent exactly when the needle does not occur, and otherwise gives the first occurrence |
| Php.StrposFalsyIff | src/PHPixie/FrameworkBundle/Console/GenerateORM.php:177 | `!strpos(h, n)` holds exactly when `n` is absent from `h` or `h` starts with `n` |
| Php.StrposFalsyAbsent | src/PHPixie/FrameworkBundle/Console/GenerateORM.php:199 | when the first characters differ, `!strpos` means "absent" |
| Php.Explode | src/PHPixie/FrameworkBundle/Console/GenerateORM.php:82 | `explode` gives at least one part and no part holds the separator |
| Php.ImplodeExplode | src/PHPixie/FrameworkBundle/Console/GenerateORM.php:82 | joining the parts of `explode` with the separator gives back the argument |
| Php.ExplodeImplode | src/PHPixie/FrameworkBundle/Console/GenerateORM.php:82 | exploding the join of separator-free parts gives back the parts |
| Php.ExplodeCons | src/PHPixie/FrameworkBundle/Console/GenerateORM.php:82 | `a:rest` explodes to `a` followed by the parts of `rest` |
| Php.ExplodeSingle | src/PHPixie/FrameworkBundle/Console/GenerateORM.php:82 | an argument without a colon is its own bundle part, with no model part |
| Php.Replace | src/PHPixie/FrameworkBundle/Console/GenerateORM.php:178 | `str_replace`, left to right and non-overlapping; specified by the `Replace*` lemmas of this table |
| Php.ReplacePrefixBack | src/PHPixie/FrameworkBundle/Console/GenerateORM.php:178 | a prefix of the result that holds no first character of the replacement is a prefix of the text |
| Php.ReplaceAddsNone | src/PHPixie/FrameworkBundle/Console/GenerateORM.php:178 | replacing by an entry plus a tail of the search string creates no occurrence of a string the text lacks, when the entry and that string share no first character |
| Php.StrposFalsy | src/PHPixie/FrameworkBundle/Console/GenerateORM.php:177 | the `!strpos(...)` guard; specified by `Php.StrposFalsyIff` and `Php.StrposFalsyAbsent` |
| Php.UcFirst | src/PHPixie/FrameworkBundle/Console/GenerateORM.php:169 | ASCII `ucfirst`; specified by `OrmProps.UcFirstIdentifier` |
| Php.LcFirst | src/PHPixie/FrameworkBundle/Console/GenerateORM.php:170 | ASCII `lcfirst`; specified by `OrmProps.LcFirstIdentifier` and `Php.LcFirstIsLower` |
| Php.StrToLower | src/PHPixie/FrameworkBundle/Console/GenerateORM.php:112 | ASCII `strtolower`; specified by `Php.LcFirstIsLower` |
| Php.LcFirstIsLower | src/PHPixie/FrameworkBundle/Console/GenerateORM.php:170 | the registration key (`lcfirst`) equals the configuration key (`strtolower`) exactly when no later letter is upper case |
| Prettify.Collapse | src/PHPixie/FrameworkBundle/Console/GenerateORM.php:213 | the whitespace stage never lengthens the text, leaves no whitespace before a comma, and starts with a comma exactly when the text starts with whitespace and a comma |
| Prettify.CollapseOnlyDropsSpace | src/PHPixie/FrameworkBundle/Console/GenerateORM.php:213 | the whitespace stage deletes whitespace and nothing else |
| Prettify.CollapseNoComma | src/PHPixie/FrameworkBundle/Console/GenerateORM.php:213 | a text without a comma passes the whitespace stage unchanged |
| Prettify.CollapseConcat | src/PHPixie/FrameworkBundle/Console/GenerateORM.php:213 | the whitespace stage works piecewise when no whitespace run crosses the seam into a comma |
| Prettify.CollapseHead | src/PHPixie/FrameworkBundle/Console/GenerateORM.php:213 | a first character that is not whitespace survives the whitespace stage |
| Prettify.CollapseKeeps | src/PHPixie/FrameworkBundle/Console/GenerateORM.php:213 | a comma-free string bounded by visible characters survives the whitespace stage |
| Prettify.DropParenCommaKeepsNoSpace | src/PHPixie/FrameworkBundle/Console/GenerateORM.php:213 | turning `(,` into `(` cannot bring whitespace back in front of a comma |
| Prettify.CollapsePrefixBack | src/PHPixie/FrameworkBundle/Console/GenerateORM.php:213 | a comma-free prefix of the whitespace stage's result is a prefix of its input |
| Prettify.CollapseAddsNone | src/PHPixie/FrameworkBundle/Console/GenerateORM.php:213 | the whitespace stage creates no occurrence of a comma-free string its input lacks |
| Prettify.PrettifyText | src/PHPixie/FrameworkBundle/Console/GenerateORM.php:212-214 | `prettifyText`; specified by `Prettify.PrettifyTextSpec`, `Prettify.PrettifyTextHead`, `Prettify.PrettifyTextKeeps`, `Prettify.PrettifyAddsNone` and `Prettify.PrettifyTextNotIdempotent` |
| Prettify.PrettifyAddsNone | src/PHPixie/FrameworkBundle/Console/GenerateORM.php:212-214 | `prettifyText` creates no occurrence of a string without comma or parenthesis that its input lacks |
| Prettify.PrettifyTextSpec | src/PHPixie/FrameworkBundle/Console/GenerateORM.php:212-214 | `prettifyText` leaves no whitespace before a comma, never lengthens the text, and returns a comma-free text unchanged |
| Prettify.PrettifyTextHead | src/PHPixie/FrameworkBundle/Console/GenerateORM.php:212-214 | a first character that is not whitespace survives `prettifyText` |
| Prettify.PrettifyTextKeeps | src/PHPixie/FrameworkBundle/Console/GenerateORM.php:212-214 | a string without comma or parenthesis, bounded by visible characters, survives `prettifyText` |
| Prettify.PrettifyTextNotIdempotent | src/PHPixie/FrameworkBundle/Console/GenerateORM.php:212-214 | `prettifyText` is not idempotent: `((,,` becomes `((,` and that becomes `((` |
| Files.FileSystem.Write | src/PHPixie/FrameworkBundle/Console/GenerateORM.php:164 | `file_put_contents` sets the file's text and logs the write |
| Files.FileSystem.Remove | src/PHPixie/FrameworkBundle/Console/GenerateORM.php:137 | the remove action deletes the directory with everything below it |
| Files.FileSystem.CreateDirectory | src/PHPixie/FrameworkBundle/Console/GenerateORM.php:143 | the createDirectory action adds the directory |
| Files.FileSystem.Copy | src/PHPixie/FrameworkBundle/Console/GenerateORM.php:196 | `copy` gives the target the source's text, and leaves the files unchanged when the source is missing; either way it logs the copy |
| Orm.Substituted | src/PHPixie/FrameworkBundle/Console/GenerateORM.php:163 | the wrapper text, `NS` then `BUNDLE` replaced; specified by `OrmProps.SubstitutionOrder`, `OrmProps.SubstitutedVerbatim` and `EffectProps.WrappersContents` |
| Orm.ClassName | src/PHPixie/FrameworkBundle/Console/GenerateORM.php:174 | the registered class name; specified by `OrmProps.ClassNameShape` |
| Orm.ClassEntry | src/PHPixie/FrameworkBundle/Console/GenerateORM.php:178 | the entry inserted before a class marker; specified by `OrmProps.InsertionShape` |
| Orm.RegistryStep | src/PHPixie/FrameworkBundle/Console/GenerateORM.php:177-185 | one guarded patch of `src/ORM.php`; specified by `OrmProps.StepHead`, `OrmProps.StepKeeps`, `OrmProps.StepRegisters`, `OrmProps.StepKeepsMarker`, `OrmProps.StepSkips`, `OrmProps.StepWithoutMarker`, `OrmProps.StepInserts`, `OrmProps.StepEmits`, `OrmProps.StepAddsNoQueryMarker`, `OrmProps.QueryMarkerConsumed` and `OrmProps.RepositoryEntryDoubled` |
| Orm.RegistryPatched | src/PHPixie/FrameworkBundle/Console/GenerateORM.php:175-188 | the three patches then `prettifyText`; specified by `OrmProps.RegistryRegistersAll`, `OrmProps.RegistryWithoutQueryMarker`, `OrmProps.RegisterClassesIdempotent` and `OrmProps.RegistryRewritten` |
| Orm.ClassesRegistered | src/PHPixie/FrameworkBundle/Console/GenerateORM.php:168-189 | the effect of `registerClasses`; specified by `OrmProps.RegisterClassesRewrites` and reached by `Command.GenerateOrm.RegisterClasses` |
| Orm.ModelEntry | src/PHPixie/FrameworkBundle/Console/GenerateORM.php:200-206 | the model definition inserted before the model marker; specified by `OrmProps.ModelEntryShape` |
| Orm.ConfigPatched | src/PHPixie/FrameworkBundle/Console/GenerateORM.php:198-209 | the guarded patch of the configuration document; specified by `OrmProps.RegisterModelInserts`, `OrmProps.RegisterModelSkips` and `OrmProps.RegisterModelIdempotent` |
| Orm.ModelRegistered | src/PHPixie/FrameworkBundle/Console/GenerateORM.php:191-210 | the effect of `registerModel`; specified by `OrmProps.ModelRegisteredTwice`, `OrmProps.ModelRegisteredTwiceFromTemplate` and `EffectProps.RegisterModelLog`, and reached by `Command.GenerateOrm.RegisterModel` |
| Orm.Configured | src/PHPixie/FrameworkBundle/Console/GenerateORM.php:112 | the configuration lookup of `make`; specified by `EffectProps.MakeConfigFile` |
| Orm.BundlePart | src/PHPixie/FrameworkBundle/Console/GenerateORM.php:82-83 | the bundle part of `bundle:model`; specified by `EffectProps.ArgumentParts` |
| Orm.ModelPart | src/PHPixie/FrameworkBundle/Console/GenerateORM.php:82 | the model part of `bundle:model`; specified by `EffectProps.ArgumentParts` |
| Orm.ClassFileMade | src/PHPixie/FrameworkBundle/Console/GenerateORM.php:151-166 | `makeClassFile` fails with TemplateMissing exactly when the template is absent. It fails with ClassExists exactly when the template is there, the target exists and overwrite is off. A failure changes nothing. Success writes only the target. |
| Orm.WrappersMade | src/PHPixie/FrameworkBundle/Console/GenerateORM.php:145-148 | the wrapper loop never changes directories, only appends to the log, and fails only with a template or class error |
| Orm.ClassesGenerated | src/PHPixie/FrameworkBundle/Console/GenerateORM.php:128-149 | `generateClasses` fails with DirectoryExists exactly when the directory exists and overwrite is off, and then it has changed nothing. Every failure is a generation error. |
| Orm.Made | src/PHPixie/FrameworkBundle/Console/GenerateORM.php:108-122 | `make` rejects a falsy name before any effect. Its other failures are generation errors. A successful `make` ends by writing `src/ORM.php`. |
| Orm.MadeAll | src/PHPixie/FrameworkBundle/Console/GenerateORM.php:90-94 | the `-a` loop fails only with an invalid name or a generation error |
| Orm.Ran | src/PHPixie/FrameworkBundle/Console/GenerateORM.php:80-99 | `run` fails on an unknown bundle exactly when the bundle part is unknown. For a known bundle it fails with UsageError exactly when the model part is empty and `-a` is unset, or the model part is non-empty and `-a` is set. Neither failure changes anything. |
| OrmProps.UcFirstIdentifier | src/PHPixie/FrameworkBundle/Console/GenerateORM.php:169 | `ucfirst` keeps an identifier an identifier |
| OrmProps.LcFirstIdentifier | src/PHPixie/FrameworkBundle/Console/GenerateORM.php:170 | `lcfirst` keeps an identifier an identifier |
| OrmProps.ClassNameShape | src/PHPixie/FrameworkBundle/Console/GenerateORM.php:174 | a class name starts with a backslash, ends in `y`, and holds no comma, parenthesis, slash or star |
| OrmProps.MarkersShaped | src/PHPixie/FrameworkBundle/Console/GenerateORM.php:178-184 | the four markers are `/*letters*/` comments and the three class markers differ |
| OrmProps.MarkerPlain | src/PHPixie/FrameworkBundle/Console/GenerateORM.php:213 | a marker holds no comma, parenthesis or backslash |
| OrmProps.PrettifyKeepsMarker | src/PHPixie/FrameworkBundle/Console/GenerateORM.php:188 | `prettifyText` keeps every marker it finds |
| OrmProps.MarkerNotInMarker | src/PHPixie/FrameworkBundle/Console/GenerateORM.php:178-184 | no marker occurs inside another |
| OrmProps.MarkerSurvives | src/PHPixie/FrameworkBundle/Console/GenerateORM.php:178-184 | replacing one marker keeps an isolated occurrence of any other marker |
| OrmProps.InsertionShape | src/PHPixie/FrameworkBundle/Console/GenerateORM.php:178 | an inserted entry starts with a comma, ends with the marker's slash and holds the class name |
| OrmProps.StepHead | src/PHPixie/FrameworkBundle/Console/GenerateORM.php:177-185 | a patch keeps the document's opening `<` |
| OrmProps.StepKeeps | src/PHPixie/FrameworkBundle/Console/GenerateORM.php:177-185 | a patch keeps every class name already present |
| OrmProps.StepRegisters | src/PHPixie/FrameworkBundle/Console/GenerateORM.php:177-185 | where the kind's marker is present, the class name is present after the patch |
| OrmProps.StepKeepsMarker | src/PHPixie/FrameworkBundle/Console/GenerateORM.php:177-185 | a patch keeps every other isolated marker |
| OrmProps.StepSkips | src/PHPixie/FrameworkBundle/Console/GenerateORM.php:177-185 | a patch leaves alone a document that already holds the class name past its first character |
| OrmProps.StepWithoutMarker | src/PHPixie/FrameworkBundle/Console/GenerateORM.php:178-184 | a patch leaves alone a document without the kind's marker |
| OrmProps.StepInserts | src/PHPixie/FrameworkBundle/Console/GenerateORM.php:177-185 | with one marker and the guard passing, the entry is inserted right before the emitted marker and nothing else changes |
| OrmProps.StepEmits | src/PHPixie/FrameworkBundle/Console/GenerateORM.php:178-181 | the entity and repository patches keep their own marker |
| OrmProps.QueryMarkerConsumed | src/PHPixie/FrameworkBundle/Console/GenerateORM.php:183-185 | the query patch replaces the query marker by the entry and the repository marker. No query marker is left, so the query patch of every other model is a no-op. |
| OrmProps.EntityStage | src/PHPixie/FrameworkBundle/Console/GenerateORM.php:177-179 | after the entity patch the entity class is present, the entity and repository markers are still isolated, and the query marker is still isolated, or still absent, as it was |
| OrmProps.RepositoryStage | src/PHPixie/FrameworkBundle/Console/GenerateORM.php:180-182 | after the repository patch both classes are present, the entity and repository markers are still isolated, and the query marker is still isolated, or still absent, as it was |
| OrmProps.StepAddsNoQueryMarker | src/PHPixie/FrameworkBundle/Console/GenerateORM.php:177-182 | the entity and repository patches never create a query marker |
| OrmProps.QueryStage | src/PHPixie/FrameworkBundle/Console/GenerateORM.php:183-185 | after the query patch all three classes are present, and so are the entity and repository markers |
| OrmProps.PrettifyStage | src/PHPixie/FrameworkBundle/Console/GenerateORM.php:188 | prettifying keeps the three class names and the two markers |
| OrmProps.RegistryRegistersAll | src/PHPixie/FrameworkBundle/Console/GenerateORM.php:168-189 | after `registerClasses` the document holds all three class names and still the entity and repository markers |
| OrmProps.MarkerReemitted | src/PHPixie/FrameworkBundle/Console/GenerateORM.php:178 | re-emitting a marker after an entry keeps it isolated |
| OrmProps.RegisterClassesIdempotent | src/PHPixie/FrameworkBundle/Console/GenerateORM.php:168-189 | a second `registerClasses` for the same model inserts nothing and only prettifies again, both on a document that still holds its query marker and on one whose query marker an earlier registration consumed |
| OrmProps.RegistryWithoutQueryMarker | src/PHPixie/FrameworkBundle/Console/GenerateORM.php:168-189 | without a query marker, `registerClasses` registers the Entity and Repository classes and creates no query marker |
| OrmProps.RepositoryEntryDoubled | src/PHPixie/FrameworkBundle/Console/GenerateORM.php:180-184 | once the query patch has written a second repository marker, the repository patch inserts the entry in front of both |
| OrmProps.RegistryRewritten | src/PHPixie/FrameworkBundle/Console/GenerateORM.php:188 | when all three classes are registered, the patch is exactly `prettifyText` |
| OrmProps.RegisterClassesRewrites | src/PHPixie/FrameworkBundle/Console/GenerateORM.php:168-189 | even then, `src/ORM.php` is written back |
| OrmProps.ModelEntryShape | src/PHPixie/FrameworkBundle/Console/GenerateORM.php:200-206 | the model entry starts with a comma and holds the quoted name |
| OrmProps.RegisterModelInserts | src/PHPixie/FrameworkBundle/Console/GenerateORM.php:198-209 | with one marker and both guards passing, the entry goes right before the marker, which is kept, and the result is prettified |
| OrmProps.RegisterModelSkips | src/PHPixie/FrameworkBundle/Console/GenerateORM.php:199 | a document starting with `<` is left alone exactly when it holds `'name'` or `"name"` |
| OrmProps.RegisterModelIdempotent | src/PHPixie/FrameworkBundle/Console/GenerateORM.php:198-209 | after a model is inserted, a second insertion of it is refused |
| OrmProps.ModelRegisteredTwice | src/PHPixie/FrameworkBundle/Console/GenerateORM.php:191-210 | when the configuration document exists, `registerModel` twice leaves the filesystem as `registerModel` once |
| OrmProps.ModelRegisteredTwiceFromTemplate | src/PHPixie/FrameworkBundle/Console/GenerateORM.php:195-198 | when it does not, the first `registerModel` copies the template and patches the copy, and a second call again changes nothing |
| OrmProps.SubstitutionOrder | src/PHPixie/FrameworkBundle/Console/GenerateORM.php:163 | `NS` is substituted before `BUNDLE`, so a model name containing `BUNDLE` gets the bundle substituted into it |
| OrmProps.SubstitutedVerbatim | src/PHPixie/FrameworkBundle/Console/GenerateORM.php:163 | a template without either token is copied verbatim |
| EffectProps.ClassFileUnder | src/PHPixie/FrameworkBundle/Console/GenerateORM.php:157 | every wrapper file lies inside the model directory |
| EffectProps.ClassFilesDistinct | src/PHPixie/FrameworkBundle/Console/GenerateORM.php:157 | the three wrapper files are different files |
| EffectProps.TemplateNotInBundle | src/PHPixie/FrameworkBundle/Console/GenerateORM.php:153 | templates are neither the model directory nor any wrapper file |
| EffectProps.WrappersOk | src/PHPixie/FrameworkBundle/Console/GenerateORM.php:145-148 | the wrapper loop runs to the end exactly when every template exists and, without overwrite, no wrapper file does |
| EffectProps.WrappersFrame | src/PHPixie/FrameworkBundle/Console/GenerateORM.php:145-148 | the wrapper loop writes no file but the wrappers, whether it succeeds or not |
| EffectProps.ClassWrites | src/PHPixie/FrameworkBundle/Console/GenerateORM.php:145-148 | the writes of the wrapper loop, one per kind; its contents are stated by `EffectProps.ClassWritesContents` |
| EffectProps.ClassWritesContents | src/PHPixie/FrameworkBundle/Console/GenerateORM.php:145-148 | the `i`-th logged write of the wrapper loop is that of the `i`-th wrapper file |
| EffectProps.WrappersLog | src/PHPixie/FrameworkBundle/Console/GenerateORM.php:145-148 | a successful wrapper loop logs one write per wrapper, in order |
| EffectProps.WrappersContents | src/PHPixie/FrameworkBundle/Console/GenerateORM.php:145-148 | after it, each wrapper file holds its substituted template |
| EffectProps.PreparedLog | src/PHPixie/FrameworkBundle/Console/GenerateORM.php:136-143 | preparing the model directory logs its removal (only if it existed) and its creation, and leaves it in place |
| EffectProps.PreparedFiles | src/PHPixie/FrameworkBundle/Console/GenerateORM.php:136-143 | preparing the model directory keeps the templates and removes old wrapper files when the directory existed |
| EffectProps.PreparedFrame | src/PHPixie/FrameworkBundle/Console/GenerateORM.php:136-143 | preparing the model directory keeps every file outside it and empties it when it existed |
| EffectProps.GenerateOk | src/PHPixie/FrameworkBundle/Console/GenerateORM.php:128-149 | `generateClasses` succeeds exactly when the templates exist and, without overwrite, neither the directory nor a wrapper file does |
| EffectProps.GenerateFiles | src/PHPixie/FrameworkBundle/Console/GenerateORM.php:128-149 | after it, each wrapper holds its substituted template, other files under an old directory are gone, and every other file is unchanged, below a new directory too |
| EffectProps.GenerateWrapperContents | src/PHPixie/FrameworkBundle/Console/GenerateORM.php:145-164 | after a successful generation each wrapper file holds its template with `NS` and `BUNDLE` substituted |
| EffectProps.GenerateClearsOld | src/PHPixie/FrameworkBundle/Console/GenerateORM.php:136-137 | generating over an old model directory removes every file below it but the wrappers |
| EffectProps.GenerateKeepsOthers | src/PHPixie/FrameworkBundle/Console/GenerateORM.php:136-148 | generating into a new model directory keeps every file but the wrappers |
| EffectProps.GenerateLog | src/PHPixie/FrameworkBundle/Console/GenerateORM.php:136-148 | its actions are: remove the old directory (only if there was one), create it, then write Repository, Entity and Query |
| EffectProps.GenerateFrame | src/PHPixie/FrameworkBundle/Console/GenerateORM.php:128-149 | `generateClasses` touches nothing outside the model directory, even when it fails |
| EffectProps.GenerateTwiceFails | src/PHPixie/FrameworkBundle/Console/GenerateORM.php:140-141 | generating the same model again without overwrite fails with DirectoryExists and changes nothing |
| EffectProps.GenerateDirs | src/PHPixie/FrameworkBundle/Console/GenerateORM.php:136-143 | the directories afterwards are the directory plus the old ones, less those below it when it existed |
| EffectProps.GenerateKeepsTemplates | src/PHPixie/FrameworkBundle/Console/GenerateORM.php:153-163 | generation leaves the templates as they were |
| EffectProps.RegenerateSameFile | src/PHPixie/FrameworkBundle/Console/GenerateORM.php:136-164 | regenerating with overwrite leaves each path as the first generation left it, whether that one found an old model directory or none |
| EffectProps.RegenerateSameFiles | src/PHPixie/FrameworkBundle/Console/GenerateORM.php:136-164 | regenerating with overwrite yields the same files, whether the first generation found an old model directory or none |
| EffectProps.GenerateOverwriteStable | src/PHPixie/FrameworkBundle/Console/GenerateORM.php:136-148 | with overwrite, generating twice succeeds both times and gives the same directories and files, whether the model directory existed or had never been made |
| EffectProps.MakeConfigFile | src/PHPixie/FrameworkBundle/Console/GenerateORM.php:112-115 | `make` changes the configuration document only through `registerModel`, and only for a model the configuration lacks |
| EffectProps.RegisterModelLog | src/PHPixie/FrameworkBundle/Console/GenerateORM.php:195-208 | `registerModel` copies the template only when the document is missing, and writes only when the guards pass |
| EffectProps.MakeLog | src/PHPixie/FrameworkBundle/Console/GenerateORM.php:108-122 | `make` registers the model (if it is not configured), then generates the classes, then registers them, last |
| EffectProps.GenerateThenRegisterLog | src/PHPixie/FrameworkBundle/Console/GenerateORM.php:116-120 | in `make`, a successful generation is followed by exactly one write, the one of `src/ORM.php` |
| EffectProps.ArgumentParts | src/PHPixie/FrameworkBundle/Console/GenerateORM.php:82-83 | `bundle:model` names the bundle and the model |
| EffectProps.RunSingle | src/PHPixie/FrameworkBundle/Console/GenerateORM.php:87-89 | `run bundle:model` without `-a` is one `make` of that model |
| EffectProps.BulkIsSingles | src/PHPixie/FrameworkBundle/Console/GenerateORM.php:90-94 | the `-a` loop equals one `run bundle:model` per listed model, in order, stopping at the first failure |
| EffectProps.RunAllIsSingles | src/PHPixie/FrameworkBundle/Console/GenerateORM.php:90-94 | `run bundle -a` equals one `run bundle:model` per configured model, in enumeration order |
| Command.GenerateOrm.constructor | src/PHPixie/FrameworkBundle/Console/GenerateORM.php:61 | the command starts with the given filesystem and bundle configuration |
| Command.GenerateOrm.Run | src/PHPixie/FrameworkBundle/Console/GenerateORM.php:80-99 | `run` sets the fields from the options and the argument, then reaches the state and status of `Orm.Ran` |
| Command.GenerateOrm.MakeAll | src/PHPixie/FrameworkBundle/Console/GenerateORM.php:90-94 | the `-a` loop reaches the state and status of `Orm.MadeAll` |
| Command.GenerateOrm.Make | src/PHPixie/FrameworkBundle/Console/GenerateORM.php:108-122 | `make` reaches the state and status of `Orm.Made` |
| Command.GenerateOrm.GenerateClasses | src/PHPixie/FrameworkBundle/Console/GenerateORM.php:128-149 | `generateClasses`, with its loop over the three kinds, reaches the state and status of `Orm.ClassesGenerated` |
| Command.GenerateOrm.MakeClassFile | src/PHPixie/FrameworkBundle/Console/GenerateORM.php:151-166 | `makeClassFile` reaches the state and status of `Orm.ClassFileMade` |
| Command.GenerateOrm.RegisterClasses | src/PHPixie/FrameworkBundle/Console/GenerateORM.php:168-189 | the three conditional patches and the write reach the state of `Orm.ClassesRegistered` |
| Command.GenerateOrm.RegisterModel | src/PHPixie/FrameworkBundle/Console/GenerateORM.php:191-210 | the read, patch and write reach the state of `Orm.ModelRegistered` |

## Left out

- Writing progress lines, the command's declaration and its help texts are user interface with no logic, and are not modelled.
- The framework builder's lookups are inputs of the model, not code. Bundle lookup, `ormConfig()->get('models.' ...)` and `getData('models')` become a map from bundle name to its configured models, in enumeration order. An unknown bundle is the `UnknownBundle` failure. The configuration is a snapshot taken when the command starts.
- A dotted or otherwise unusual model name is looked up as a single key. The configuration's handling of dots in keys is not part of this model.
- A `type` or `connection` argument that is not given is passed as "", which is what PHP makes of the missing value. `make`'s default parameter values never apply on the paths `run` takes.
- Real I/O is not modelled. The filesystem is a set of directories, a map from path to text and a log of actions. Writes do not require the parent directory to exist. File permissions and I/O errors are not modelled.
- The regular expression's `\s` under `/u` is modelled as a fixed set of white space characters. PCRE's other Unicode handling is not modelled, and neither are invalid UTF-8 input or character encodings.
- The contents of the wrapper templates and of the configuration template are inputs.
- `ORMWrappers.php` in the bundle template declares two empty arrays and has no behaviour.
- The `else` branch of `run` that reports an unexpected state (`GenerateORM.php:96`) cannot be reached, because the two branches before it cover every case. The model has no such failure.
- Concurrency: the command is single-threaded, and concurrent runs are outside its design.
- Normalising after several insertions at an empty marker is covered only for one insertion at a time. The claim that no orphan commas remain and there are exactly N entries is not stated.
- OrmProps.RegisterClassesIdempotent: holds only for identifier names and a document that starts with `<`, holds the entity and repository markers isolated (not touching a `*`), and holds the query marker isolated or not at all. Without these, `!strpos` at offset 0 or a marker fused with a neighbour changes the outcome.
- OrmProps.RegisterModelIdempotent: holds only for a document that starts with `<` and holds the marker, and a name without a comma or parenthesis, which `prettifyText` would alter.
- EffectProps.BulkIsSingles: needs bundle and model names without a colon, and non-falsy model names; other names do not survive the `bundle:model` round trip through `explode`.
- Command.GenerateOrm.MakeAll: the `-a` loop of `run` is a method of its own, so that `run` and the loop can be proved separately. It is called only from `run`.
- EffectProps.RegenerateSameFile: covers a first generation over an old model directory or where neither the directory nor anything below it exists; a world that records files or directories below a missing directory, which a real filesystem cannot hold, is not covered.
- EffectProps.RegenerateSameFiles: the same restriction as `EffectProps.RegenerateSameFile`.
- EffectProps.GenerateOverwriteStable: the same restriction as `EffectProps.RegenerateSameFile`.
