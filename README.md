# Simond: a verified model of the vault window's logic

Simond is a small desktop file "vault" written with PySide6. This project models in Dafny the parts of it
that carry logic once the widgets are set aside, and proves properties of that model:

- **Sidebar** (`components/custom_sidebar.py`). The sidebar keeps a table from entry id to entry object,
  the id of the current entry, and the order of its layout. Selecting an entry deselects the previous one.
  `add_item` inserts a new entry at `count() - 2`, just before the spacer while settings is still last, and `remove_item` falls back to "home" when the
  current entry is removed. Each entry chooses its icon from its hovered and selected flags and from which
  icon files exist. Recoloured icons go through a rewrite of the SVG `fill` attributes that keeps
  `fill="none"`.
- **Title bar** (`components/custom_title_bar.py`). Dragging the window by the bar, the maximize button's
  glyph, the title label and the search text.
- **User-settings popover** (`components/user_settings_menu.py`). Its six fixed entries, showing it at an
  anchor with an opening animation that is started only when none is running, and hiding it after any
  entry, after logout and on focus loss.
- **Main window** (`main.py`):
  - the chosen vault folder and the status line;
  - maximizing and restoring, together with the title bar's button and the rounded-corner mask;
  - the drag-and-drop import: the guards, the per-path filter, POSIX `basename`/`join` destinations, the
    copy counter, the ordered failure list, and the four-way message at the end.

Stateful code is modelled as classes whose methods change their fields: `SidebarItem`, `CustomSidebar`,
`CustomTitleBar`, `UserSettingsMenu` and `VaultWindow`. The drop loop is a `for` loop proved against
`VaultImport.Import`, a function of the dropped paths, the filesystem and the copy routine. The properties
of the batch are lemmas about that function.

Things outside the program become parameters:

- The filesystem is a map from path to "is a regular file".
- The copy routine (`shutil.copy2`) is a function from source and destination to success or an error text.
- The folder dialog is the folder it returned.
- The URLs of a drop are their local paths.
- The icon files on disk are a set of paths, and a map to their text where the text matters.
- Message boxes and signals are appended to logs.

Behaviour of the code that the model keeps as it is:

- Selecting an unknown id deselects the current entry and keeps the current id.
- The fixed sidebar ids are home, files, recent, favorites and settings.
- Once a vault is chosen and the drop is non-empty, a drop ends with one of the four result messages of `dropEvent`.
- Once a vault is chosen and the drop is non-empty, a drop in which no path is a regular file ends with the "no valid files" warning.
- Icon colours are the fixed `#4CC2FF` (hover) and `#808080` (idle).
- The popover is shown at a position by its owner and hidden by its own handlers.

While a batch runs, a path counts as a regular file if it is one at that moment. A path created by an
earlier copy in the same drop is therefore a file when its turn comes, as in the loop of `dropEvent`. Paths are
compared as strings (see "## Left out").

## Model

| member | source | states |
|---|---|---|
| Geometry.Add | components/custom_title_bar.py:271-272 | the sum of two points, from which the first is recovered by subtracting the second |
| Geometry.Sub | components/custom_title_bar.py:271 | the displacement between two points: adding it back to the second gives the first |
| PosixPath.BasenameIsLastComponent | main.py:257 | `basename` holds no '/', is a suffix of the path, and is the whole path or preceded by a '/' |
| PosixPath.AsDirectory | main.py:258 | the directory ending in exactly one added '/' when it had none, and unchanged when it already ends in '/' |
| PosixPath.BasenameAfterSlash | main.py:257 | after a directory ending in '/', the basename of a slash-free name is the name |
| PosixPath.JoinDirectlyUnder | main.py:258 | `join(dir, name)` of a slash-free name puts it directly under `dir`, and its basename is `name` |
| PosixPath.JoinKeepsBasename | main.py:257-258 | the copy destination lies directly under the vault folder and has the source's basename |
| Text.IndexOf | components/custom_sidebar.py:34-35 | the position of the first occurrence of a character, where `[^<q>]*<q>` closes an attribute; `Split` uses it too |
| Text.DigitChar | main.py:281 | a decimal digit character |
| Text.DigitValue | main.py:281 | the value of a digit character, below ten: the inverse of the digits `str(n)` writes, kept for the round trip |
| Text.Decimal | main.py:281 | `str(n)`: non-empty, digits only, no leading zero |
| Text.DigitRoundTrip | main.py:281 | reading back a digit that `str(n)` writes gives the digit |
| Text.DecimalRoundTrip | main.py:281 | the count formatted into the message reads back as the count: parsing `str(n)` gives `n` |
| Text.Split | main.py:277 | `str.split`, the inverse of the `"\n".join` of the failure lines: it gives at least one part |
| Text.SplitsAfterHead | main.py:277 | for the inverse of the join: the first separator after a separator-free head ends the first part |
| Text.SplitJoin | main.py:277 | the join of the failure lines loses nothing: splitting the `"\n".join` of separator-free lines gives the lines back |
| SvgFill.Opening | components/custom_sidebar.py:34-35 | the six-character literal `fill=` plus the quote |
| SvgFill.AfterAttribute | components/custom_sidebar.py:34-35 | the rest of the document after a matched attribute is shorter than the document |
| SvgFill.LoadSvgWithColor | components/custom_sidebar.py:17-35 | a missing file gives the empty icon, and only then; otherwise both substitutions run, double quotes first |
| SvgFill.AttributeCloses | components/custom_sidebar.py:34-35 | the pattern matches an attribute whose value holds no quote, the group is that value, and the scan resumes just after the closing quote |
| SvgFill.SubFillRewritesAttributes | components/custom_sidebar.py:27-35 | over a scanned cut of the document, one pass recolours exactly the attributes other than `none` and copies all other text |
| SvgFill.ScannedCons | components/custom_sidebar.py:34-35 | a scanned cut stays scanned when a fitting piece is put in front |
| SvgFill.SourceCons | components/custom_sidebar.py:34-35 | the text of a piece put in front of other pieces |
| SvgFill.CutAround | components/custom_sidebar.py:34-35 | cutting a document around a position and gluing it back gives the document |
| SvgFill.SplitAtAttribute | components/custom_sidebar.py:34-35 | a document starting with a match is the opening literal, a quote-free value, the quote and the rest |
| SvgFill.ScanAttributeStep | components/custom_sidebar.py:34-35 | the left-to-right cut of a document starting with a match spells it and is scanned |
| SvgFill.ScanCharStep | components/custom_sidebar.py:34-35 | the left-to-right cut of a document starting with a plain character spells it and is scanned |
| SvgFill.ScanIsScanned | components/custom_sidebar.py:34-35 | every document has a left-to-right cut into characters and attributes that spells it again |
| SvgFill.SubFillIsRewrite | components/custom_sidebar.py:27-35 | one `re.sub` pass equals the rewrite of the document's cut: `fill=<q>X<q>` with X other than `none` becomes `fill="<color>"`, everything else is kept |
| SvgFill.SubFillKeepsPlainText | components/custom_sidebar.py:34-35 | text in which the pattern never matches comes through a pass unchanged |
| SidebarIcons.ChooseIconMeaning | components/custom_sidebar.py:131-150 | only existing files are shown; blue exactly when hovered with an existing filled icon, and blank with no fall-through when that file is missing; a selected entry that is not hovered shows the filled icon uncoloured; grey exactly for an idle entry with an existing regular icon |
| SidebarIcons.IconSvg | components/custom_sidebar.py:131-149 | a blank icon or a missing file has no image; an existing file is shown as it is, or, for a tinted icon, after both fill substitutions with the icon's colour |
| SidebarIcons.ChosenIconRenders | components/custom_sidebar.py:131-149 | when the files the choice consults are the files read, an icon chosen as present always has an image |
| Sidebar.SidebarItem.constructor | components/custom_sidebar.py:54-103 | a new entry is neither selected nor hovered and shows the icon chosen for that |
| Sidebar.SidebarItem.UpdateIcon | components/custom_sidebar.py:131-163 | the icon on display is the one chosen for the present flags |
| Sidebar.SidebarItem.SetSelected | components/custom_sidebar.py:177-181 | the selected flag takes the value and the icon follows; hover is unchanged |
| Sidebar.SidebarItem.Enter | components/custom_sidebar.py:165-169 | the entry is hovered and the icon follows; selection is unchanged |
| Sidebar.SidebarItem.Leave | components/custom_sidebar.py:171-175 | the entry is no longer hovered and the icon follows; selection is unchanged |
| Sidebar.InsertBeforeLastTwo | components/custom_sidebar.py:329-331 | inserting at `count() - 2` adds one widget |
| Sidebar.Without | components/custom_sidebar.py:337 | removing a widget never grows the layout |
| Sidebar.InsertMembers | components/custom_sidebar.py:329-331 | inserting adds exactly the new widget to the layout |
| Sidebar.WithoutMembers | components/custom_sidebar.py:337 | removing takes away exactly the given widget |
| Sidebar.WithoutKeepsDistinct | components/custom_sidebar.py:337 | removing keeps the layout free of repeated widgets |
| Sidebar.InsertKeepsDistinct | components/custom_sidebar.py:329-331 | inserting a widget that is not laid out keeps the layout free of repeats |
| Sidebar.AddKeepsLayout | components/custom_sidebar.py:319-331 | adding the entry of a new id keeps the layout holding the spacer and each entry once |
| Sidebar.RemoveKeepsLayout | components/custom_sidebar.py:333-339 | removing an entry keeps the layout holding the spacer and each remaining entry once |
| Sidebar.InsertGoesBeforeSpacer | components/custom_sidebar.py:329-331 | while spacer and settings close the layout, a new entry goes just before the spacer |
| Sidebar.InitialLayoutValid | components/custom_sidebar.py:260-297 | the initial layout holds the five fixed entries and the spacer, each once |
| Sidebar.NewFixedItems | components/custom_sidebar.py:255-297 | the five fixed entries home, files, recent, favorites and settings, each new, bound to its own id and unselected; home is vertical with its two icon paths |
| Sidebar.CustomSidebar.constructor | components/custom_sidebar.py:227-301 | the fixed ids, "home" current and the only selected entry, and the fixed layout |
| Sidebar.CustomSidebar.SetCurrentItem | components/custom_sidebar.py:308-317 | with a known id: it is current and the only selected entry; with an unknown id: the current id is unchanged and nothing is selected; hover flags and the table are unchanged |
| Sidebar.CustomSidebar.ClearSelection | components/custom_sidebar.py:310-312 | no entry is selected afterwards, and no hover flag changes |
| Sidebar.CustomSidebar.OnItemClicked | components/custom_sidebar.py:303-306 | the selection changes as in `SetCurrentItem` and no hover flag changes, then one notification is logged, carrying the id and the already updated current entry |
| Sidebar.CustomSidebar.AddItem | components/custom_sidebar.py:319-331 | an existing id changes nothing; a new id adds a fresh, unselected entry just for that key, not hovered and with the given text and icon text, inserted at `count() - 2`, with the current entry unchanged |
| Sidebar.CustomSidebar.Enroll | components/custom_sidebar.py:326-331 | an unselected entry bound to a new id joins the table under that key and the layout at `count() - 2`, keeping the sidebar's invariants |
| Sidebar.CustomSidebar.RemoveItem | components/custom_sidebar.py:333-343 | an unknown id changes nothing; otherwise the entry leaves the table and the layout; removing a non-current entry keeps every selected flag; no hover flag changes; removing the current one makes "home" current and the only selected entry, or, without a "home" entry, keeps the current id with nothing selected |
| Sidebar.CustomSidebar.Forget | components/custom_sidebar.py:335-339 | the entry leaves the table and the layout, keeping the sidebar's invariants |
| Sidebar.SelectAsWritten | components/custom_sidebar.py:308-317 | the selection test as written: a known id becomes current and selected, an unknown one leaves the current id alone |
| Sidebar.EmptyIdStaysSelected | components/custom_sidebar.py:311 | with "" current, selecting "home" leaves both selected |
| TitleBar.Moves | components/custom_title_bar.py:266-274 | a sequence of move events, one per point, in order |
| TitleBar.DragKeepsOffset | components/custom_title_bar.py:266-274 | during a drag the window position minus the recorded pointer position is constant, and the recorded position is the last pointer position |
| TitleBar.DragMovesWindowByDisplacement | components/custom_title_bar.py:260-274 | after a left press at p0 and moves ending at pn, the window has moved by pn - p0 |
| TitleBar.MovesWithoutDragAreIgnored | components/custom_title_bar.py:268 | moves while no press is recorded change nothing |
| TitleBar.ReleaseEndsDrag | components/custom_title_bar.py:276-279 | after a release, moves change nothing until the next press |
| TitleBar.OtherButtonDoesNotDrag | components/custom_title_bar.py:260-264 | a press of another button starts no drag |
| TitleBar.FieldText | components/custom_title_bar.py:225-228 | the text `setText` keeps is a prefix of the given text of at most 32767 characters, equal to it exactly when the given text is no longer, and of length 32767 otherwise |
| TitleBar.MaximizeGlyph | components/custom_title_bar.py:281-287 | "❐" exactly when maximized, "□" exactly when not |
| TitleBar.CustomTitleBar.constructor | components/custom_title_bar.py:23-30 | the label shows the title, the search text is empty, the button shows "□", no drag is recorded |
| TitleBar.CustomTitleBar.SetTitle | components/custom_title_bar.py:199-202 | the stored title and the label both equal the new title |
| TitleBar.CustomTitleBar.GetSearchText | components/custom_title_bar.py:221-223 | the text the search field currently holds |
| TitleBar.CustomTitleBar.SetSearchText | components/custom_title_bar.py:225-228 | the search field holds the text cut to the line edit's default `maxLength` of 32767, so a text of at most that length is returned unchanged by `GetSearchText` |
| TitleBar.CustomTitleBar.UpdateMaximizeButton | components/custom_title_bar.py:281-287 | the flag takes the value and the glyph matches it |
| TitleBar.CustomTitleBar.MousePress | components/custom_title_bar.py:260-264 | a left press records its point; other buttons leave the record alone |
| TitleBar.CustomTitleBar.MouseMove | components/custom_title_bar.py:266-274 | with no record nothing moves; otherwise the point is recorded and the window keeps its offset to the recorded point |
| TitleBar.CustomTitleBar.MouseRelease | components/custom_title_bar.py:276-279 | the record is cleared |
| UserMenu.MenuEntriesAreFixed | components/user_settings_menu.py:187-198 | six entries, each bound to a distinct signal, none of them logout |
| UserMenu.OpeningRects | components/user_settings_menu.py:261-271 | start and end share the anchor corner and the width; the height grows from 0 to the full height |
| UserMenu.UserSettingsMenu.constructor | components/user_settings_menu.py:27-58 | hidden, without focus, no animation running, nothing emitted, 280 wide |
| UserMenu.UserSettingsMenu.Hide | components/user_settings_menu.py:158-161 | hidden and without focus |
| UserMenu.UserSettingsMenu.ShowAtPosition | components/user_settings_menu.py:261-282 | collapsed to a zero-height strip at the anchor, shown and focused; a running animation keeps its targets, otherwise the animation starts from that strip to the full height |
| UserMenu.UserSettingsMenu.FinishAnimation | components/user_settings_menu.py:279-282 | when a run ends, the geometry is its end rectangle |
| UserMenu.UserSettingsMenu.ClickEntry | components/user_settings_menu.py:253-257 | the entry's signal is emitted while the menu is still shown (the log records the visibility at emission), then the menu hides |
| UserMenu.UserSettingsMenu.ClickLogout | components/user_settings_menu.py:158-161 | `logout_clicked` is emitted while the menu is still shown (the log records the visibility at emission), then the menu hides |
| UserMenu.UserSettingsMenu.FocusOut | components/user_settings_menu.py:304-307 | losing focus hides the menu, whatever its state |
| VaultImport.ImportPrefixStep | main.py:247-268 | the batch over one more path is one more iteration of the loop |
| VaultImport.ImportOneExtends | main.py:252-268 | one iteration skips the path exactly when it is empty or not a regular file; otherwise it appends exactly one attempt and counts it as a success or records its failure |
| VaultImport.ImportAccounting | main.py:244-268 | copied plus failed equals the copies attempted; the counter is the number of successes, and the failure list is the failures as (basename, error) pairs in drop order |
| VaultImport.ImportDestinations | main.py:257-258 | every destination is `join(vault_dir, basename(source))` |
| VaultImport.ImportLandsInVault | main.py:257-263 | with a vault folder chosen, every copy lands directly inside it under the source's own file name |
| VaultImport.ImportOnlyAddsFiles | main.py:263 | files that existed still exist, and each successful copy leaves a file at its destination |
| VaultImport.ImportAttemptsEveryFile | main.py:247-268 | when every dropped path is a regular file, all are attempted in drop order, whatever earlier copies did |
| VaultImport.ImportSkipsNonFiles | main.py:252-253 | a drop in which no path is a non-empty regular file copies nothing, fails nothing and changes nothing |
| VaultImport.Sources | main.py:247-249 | the source of each attempt, in order |
| VaultImport.PassingFromDrop | main.py:247-253 | only non-empty dropped paths pass the filter |
| VaultImport.ImportAttemptsPassing | main.py:247-268 | the copies attempted are exactly the dropped paths that are non-empty and a regular file when their turn comes, in drop order, whatever any copy returned |
| VaultImport.ImportCountsPassing | main.py:244-268 | copied plus failed equals the number of dropped paths that pass the filter at their turn |
| VaultImport.ImportAttemptsInitialFiles | main.py:247-268 | every non-empty dropped path that is a regular file before the drop is attempted, whatever the rest of the drop holds |
| VaultImport.ExampleDestination | main.py:257-258 | "/home/u/a.txt" dropped into "/vault" goes to "/vault/a.txt" |
| VaultImport.DropExample | main.py:247-268 | a drop of a file and a folder copies the file once and skips the folder |
| VaultImport.FailureLinesOf | main.py:277 | one `"name: error"` line per failure, in order |
| VaultImport.Outcome | main.py:271-302 | copied with no failures gives "成功" with the count; copied with failures gives the partial-failure warning with the count and the failure lines; no copies with failures gives the critical message; nothing copied and nothing failed gives the "no valid files" warning |
| VaultImport.FailureLineOnOneLine | main.py:277 | a failure whose name and error hold no newline gives a one-line `"name: error"` |
| VaultImport.FailureListSplits | main.py:277 | the failure list splits back into one line per failure when names and errors hold no newline |
| Vault.Toggle | main.py:172-183 | maximized is flipped, the size is kept, and the mask fits the new state: none when maximized, a rounded rectangle of the window's size otherwise |
| Vault.Resized | main.py:127-143 | the new size is taken; a fitting mask stays fitting, and a maximized window keeps its mask |
| Vault.ToggleTwice | main.py:172-183 | maximizing and restoring gives back the window as it was |
| Vault.RestoreUsesLatestSize | main.py:139-178 | a resize while maximized reaches the mask when the window is restored |
| Vault.StatusText | main.py:185-206 | "no vault chosen" without a folder, otherwise the prefix followed by the folder |
| Vault.VaultWindow.constructor | main.py:25-38 | no vault folder, a 900 by 600 window at (100, 100) with a rounded mask, the title bar showing "Simond 保险箱" |
| Vault.VaultWindow.ToggleMaximize | main.py:172-183 | the window's shape becomes `Toggle` of the old one, and the title bar's button follows |
| Vault.VaultWindow.Resize | main.py:139-143 | the window's shape becomes `Resized` of the old one |
| Vault.VaultWindow.ChooseVaultDir | main.py:185-206 | a cancelled dialog changes nothing; otherwise the folder becomes the vault, the view's root and the subject of the status line |
| Vault.VaultWindow.Drop | main.py:224-304 | an empty drop is ignored; a drop with no vault copies nothing and gives exactly one warning; otherwise the filesystem and the one message are those of the batch over all dropped paths |
| Vault.VaultWindow.CopyIntoVault | main.py:244-268 | the loop's counter, failure list and filesystem are those of the batch over all dropped paths |

## Left out

- `components/custom_top_bar.py` and `components/custom_toolbar.py` are not part of this model. They build widgets and forward signals, with no logic to state.
- Painting, stylesheets, layout margins, the logo and avatar placeholders, and the placement of the search icon are visual only.
- The mask is modelled as "a rounded rectangle of the window's size with radius 12". The polygon that `QRegion` builds from the rounded path is not modelled.
- SVG rasterisation is not modelled (`QSvgRenderer`, `QPixmap`, icon sizes), and neither is reading the file. A file's text is given as a map.
- `QIcon(path)` of an existing file is modelled as the file's text shown as it is. How the toolkit loads it is not modelled.
- The folder dialog, the message boxes and the file view (`QFileDialog`, `QMessageBox`, `QFileSystemModel`) are not modelled as widgets. The model has the folder the dialog returned, a log of the messages, and the view's root path.
- `shutil.copy2` is an oracle that depends only on the source and destination paths. File contents, metadata and what a failed copy leaves behind are not modelled. Nor is copying onto a destination that is a directory.
- Turning a URL into a local path (`toLocalFile`) is not modelled: a drop is the list of local paths, with "" for a URL that is not a local file.
- `dragEnterEvent`, which accepts a drag only when it carries URLs, is not modelled. Neither is the toolkit's accept/ignore bookkeeping beyond the `accepted` result.
- The animation's 200 ms duration and the OutCubic easing are not modelled. `running` says whether the animation is in progress, and `FinishAnimation` stands for the moment it ends.
- The height that `adjustSize` computes is not modelled: it is the `fullHeight` given when the menu is built.
- The window manager's resize on maximize or restore is not modelled. Resizes arrive as separate `Resize` calls.
- `showMinimized`, `close`, the `minimize_clicked`/`close_clicked` signals and the forwarding of `textChanged` are not modelled. They act on the toolkit alone.
- `set_logo`, `set_bar_height`, `set_background_color` and `set_title_style` only change appearance.
- Signal delivery is modelled as appended logs (`clicked`, `emitted`). Connected slots are not called.
- The `print` in `on_file_double_clicked` is output only.
- Coordinates are unbounded integers. The toolkit's 32-bit range and the rounding of the floating-point global position in `toPoint()` are not modelled.
- The SVG file's text is read as characters. Encoding is not modelled.
- Paths are compared as strings: the filesystem is a map keyed by path text, so a file reached under another spelling (`..`, `./`, a doubled `/`, a symbolic link) is not the same file to `IsFile`. Path normalisation and aliasing are not modelled.
- SetSearchText: the 32767 limit is counted in Dafny characters (Unicode scalar values), while Qt counts UTF-16 code units, so for text with characters outside the Basic Multilingual Plane the model keeps more than Qt does.

## Findings

| source | as written | input that shows it | evidently intended | confidence | as-written member | corrected member |
|---|---|---|---|---|---|---|
| components/custom_sidebar.py:311 | the old entry is deselected only when `self.current_item` is truthy, and the id "" is falsy | an entry added with id "" is current, then "home" is selected: both stay selected | deselect whenever there is a current entry, so at most one entry is ever selected | not executed | Sidebar.SelectAsWritten, Sidebar.EmptyIdStaysSelected | Sidebar.CustomSidebar.SetCurrentItem |
