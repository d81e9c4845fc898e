# Android Studio core rules, modelled in Dafny

This project models six pieces of the Android Studio plugin and proves what
their code promises.

- **GridLayout drop zones** (`GridInfo`) are in module `Grid`. The line arrays
  are computed from a layout's axis locations and extended with 32-pixel cells,
  then shifted in place into layout coordinates. A coordinate is mapped to its
  row or column by a scan between lines. A 2-D occupancy table records the last
  child whose clipped spans cover each cell.
- **Data-binding string rules** (`DataBindingUtil`) are in module `DataBinding`.
  They cover:
  - Java class and field names derived from layout file names (`split("[_-]")`,
    `StringUtil.capitalize`);
  - import aliases and import resolution;
  - the `default=` value of a binding expression, found with a regular-expression
    matcher loop;
  - the framework class a layout tag stands for.
- **Design-surface bookkeeping** (`DesignSurface`) is in module `Surface`, as a
  class whose fields the methods update. It covers:
  - the insertion-ordered map from models to scene managers;
  - the listener, pan/zoom-listener, layer and progress-indicator lists;
  - activation, the skip-resize flags, the zoom-type record and the scroll clamp.
- **The navigation editor's action list** (`NavActionsProperty`) is in module
  `NavActions`. It rebuilds a title-to-entry map from the selected destinations'
  action children.
- **Session lookup** (`AndroidSessionManager.findOldSession`) is in module
  `Sessions`. It finds the first running process whose session matches the run
  configuration and the executor.
- **Import event messages** (`ProjectImportEventMessage`) are in module
  `ImportMessage`: the value type and its display form.

Host objects are modelled as `nat` identities: models, scene managers,
listeners, layers, progress indicators and components. Answers from the IDE
arrive as parameters:
- reflection results;
- resource-repository lookups;
- the execution manager's process list;
- whether the project is disposed;
- whether a scene view exists and whether a scale change passed its threshold.

`Wrappers` holds the `Option` and `Result` types. A Java exception becomes an
`Err` value naming it.

## Model

| member | source | states |
|---|---|---|
| ImportMessage.ProjectImportEventMessage.ToString | android/src/com/android/tools/idea/gradle/ProjectImportEventMessage.java:45-50 | Its length is `|text|` for an empty category and `|category| + 1 + |text|` otherwise. It always ends with the text. A non-empty category comes first, followed by one space. |
| ImportMessage.ToStringRoundTrip | android/src/com/android/tools/idea/gradle/ProjectImportEventMessage.java:29-50 | The display form loses nothing when the category holds no space (and, for an empty category, the text holds none): parsing it back gives the same category and text that were given to the constructor. |
| Sessions.FindOldSession | android/src/com/android/tools/idea/run/AndroidSessionManager.java:30-39 | A result has the requested run-configuration id and executor id, and is one of the processes' session infos. The result is None exactly when no process with session info matches. |
| Sessions.FindOldSessionIsFirst | android/src/com/android/tools/idea/run/AndroidSessionManager.java:30-37 | When process k matches and no earlier one does, the result is process k's session: the first match in process order. |
| Sessions.FindOldSessionIgnoresLater | android/src/com/android/tools/idea/run/AndroidSessionManager.java:30-37 | Once a match exists, processes listed after it never change the answer (the early return). |
| DataBinding.Capitalize | android/src/com/android/tools/idea/databinding/DataBindingUtil.java:295 | `StringUtil.capitalize` keeps the length. It upper-cases the first character and keeps the rest. |
| DataBinding.IndexOf | android/src/com/android/tools/idea/databinding/DataBindingUtil.java:287 | `String.indexOf` returns the first position of the character, or -1 exactly when it does not occur. |
| DataBinding.IndexOfAfterPrefix | android/src/com/android/tools/idea/databinding/DataBindingUtil.java:543 | Behind a prefix without the character, `indexOf` finds the same occurrence, moved by the prefix's length. |
| DataBinding.LastIndexOf | android/src/com/android/tools/idea/databinding/DataBindingUtil.java:435-436 | `String.lastIndexOf` returns the last position of the character, or -1 exactly when it does not occur. |
| DataBinding.DropTrailingEmpty | android/src/com/android/tools/idea/databinding/DataBindingUtil.java:292 | The result is a prefix of the pieces. Only empty pieces are dropped, and the last piece kept is not empty. |
| DataBinding.SplitAll | android/src/com/android/tools/idea/databinding/DataBindingUtil.java:292 | Splitting at every separator gives at least one piece, and no piece holds '_' or '-'. `SplitAllRejoins` pins the pieces themselves. |
| DataBinding.SplitAllRejoins | android/src/com/android/tools/idea/databinding/DataBindingUtil.java:292 | There is one piece more than the name has separators. Joining the pieces with the name's own separators, in order, gives the name back. Since no piece holds a separator, this fixes every piece: each is exactly the text between two consecutive separators. |
| DataBinding.JavaSplit | android/src/com/android/tools/idea/databinding/DataBindingUtil.java:292 | `split("[_-]")` gives the whole name when it has no separator. For a name with a separator, it gives the pieces of `SplitAll` with the trailing empty ones dropped: a prefix of them, every dropped piece empty, and the last piece kept not empty. No piece holds '_' or '-'. |
| DataBinding.CamelCase | android/src/com/android/tools/idea/databinding/DataBindingUtil.java:292-297 | The reference naming rule never lengthens the name and leaves no '_' or '-' in it. |
| DataBinding.SplitAllIsCamelCase | android/src/com/android/tools/idea/databinding/DataBindingUtil.java:292-297 | Splitting at every separator, with empty pieces kept, and joining the pieces capitalised gives `CamelCase`. |
| DataBinding.SplitAllWithoutSeparator | android/src/com/android/tools/idea/databinding/DataBindingUtil.java:292 | A name without '_' or '-' is a single piece. |
| DataBinding.CamelCaseWithoutSeparator | android/src/com/android/tools/idea/databinding/DataBindingUtil.java:292-297 | A name without separators only has its first character upper-cased (class names) or kept (field names). |
| DataBinding.FirstSegment | android/src/com/android/tools/idea/databinding/DataBindingUtil.java:544-545 | The first segment is the prefix of the class name before its first '.': it has no '.', and it is the whole name or followed by '.'. |
| DataBinding.SkipSpaces | android/src/com/android/tools/idea/databinding/DataBindingUtil.java:391 | `\s*` consumes the longest run of regular-expression white space from the given position. |
| DataBinding.LastMatchEndBeforeBrace | android/src/com/android/tools/idea/databinding/DataBindingUtil.java:392-397 | In an expression ending in '}', the last match ends before the '}', so the substring bounds are valid. |
| DataBinding.BeforeFirstDot | android/src/com/android/tools/idea/databinding/DataBindingUtil.java:287-290 | The name is cut before its first '.': the result is a prefix without '.', and it is either the whole name or followed by a '.' in the name. |
| DataBinding.DropTrailingEmptyKeepsJoins | android/src/com/android/tools/idea/databinding/DataBindingUtil.java:292 | Java's `split` drops trailing empty pieces. Dropping them changes neither the class-name join nor the field-name join. |
| DataBinding.JavaSplitIsCamelCase | android/src/com/android/tools/idea/databinding/DataBindingUtil.java:292-297 | Joining the `split("[_-]")` pieces capitalised gives the character-level rule `CamelCase`: separators are dropped, and the character after each one is upper-cased. The same holds for the field-style join with the first piece kept as is. |
| DataBinding.ConvertToJavaClassName | android/src/com/android/tools/idea/databinding/DataBindingUtil.java:286-298 | The StringBuilder loop yields `CamelCase(name before its first '.', upper-case first)`. |
| DataBinding.ConvertToJavaFieldName | android/src/com/android/tools/idea/databinding/DataBindingUtil.java:306-325 | The loop with the `first` flag yields `CamelCase(name before its first '.', first character kept)`. |
| DataBinding.ClassNameCapitalizesFieldName | android/src/com/android/tools/idea/databinding/DataBindingUtil.java:286-325 | For the same name, the class name is the capitalised field name. |
| DataBinding.UpperCamelCaseIsCapitalized | android/src/com/android/tools/idea/databinding/DataBindingUtil.java:292-297 | A class name is already capitalised: capitalising it again changes nothing. |
| DataBinding.CamelCaseKeepsMissing | android/src/com/android/tools/idea/databinding/DataBindingUtil.java:292-297 | The naming rule introduces no character except upper-case letters. In particular, a name without '.' yields one without '.'. |
| DataBinding.ClassNameIsIdempotent | android/src/com/android/tools/idea/databinding/DataBindingUtil.java:286-298 | Converting a generated class name again gives it back unchanged. |
| DataBinding.GetAlias | android/src/com/android/tools/idea/databinding/DataBindingUtil.java:431-443 | An explicit alias, or a missing type, is returned as is. Otherwise a type without '.' or '$' is its own alias. A type ending in '.' or '$' gives None. Any other type gives the non-empty suffix after its last '.' or '$': the suffix holds neither and is preceded by one. |
| DataBinding.AliasOfQualifiedName | android/src/com/android/tools/idea/databinding/DataBindingUtil.java:435-442 | The alias of `qualifier.Simple` is `Simple`. |
| DataBinding.AliasOfNestedName | android/src/com/android/tools/idea/databinding/DataBindingUtil.java:435-442 | The alias of `Outer$Inner` is `Inner`. |
| DataBinding.ResolveImport | android/src/com/android/tools/idea/databinding/DataBindingUtil.java:541-551 | Without data-binding info, or when the first segment is not imported, the class name is returned unchanged. Otherwise the first segment is replaced by the imported type and the rest is kept. |
| DataBinding.ResolveImportOfAlias | android/src/com/android/tools/idea/databinding/DataBindingUtil.java:541-551 | An import declared without an alias is found through the alias `getAlias` gives it. Resolving that alias, or a nested class of it, yields the declared type. |
| DataBinding.IsBindingExpression | android/src/com/android/tools/idea/databinding/DataBindingUtil.java:404-406 | A string is a binding expression exactly when it starts with '@' and then '{', or with '@', '=' and '{'. |
| DataBinding.MatchDefaultAt | android/src/com/android/tools/idea/databinding/DataBindingUtil.java:391 | A match of `,\s*default\s*=\s*` starts at a comma and ends after it. No comma lies inside it, so matches never overlap. |
| DataBinding.LastMatchEndInsideMatch | android/src/com/android/tools/idea/databinding/DataBindingUtil.java:394-396 | No match starts inside another one, so `find` resuming at a match's end misses no match. |
| DataBinding.FindLastDefaultEnd | android/src/com/android/tools/idea/databinding/DataBindingUtil.java:392-396 | The `while (matcher.find()) index = matcher.end()` loop yields the end of the last match, or 0 when there is none. |
| DataBinding.Trim | android/src/com/android/tools/idea/databinding/DataBindingUtil.java:397 | `trim` returns a middle part `s[i..j]` of the text. Every character before i and from j on is at most ' '. A non-empty result starts and ends with a character above ' '. |
| DataBinding.TrimStart | android/src/com/android/tools/idea/databinding/DataBindingUtil.java:397 | The first loop of `trim` stops at the first character above ' ', passing only characters at most ' '. |
| DataBinding.TrimEnd | android/src/com/android/tools/idea/databinding/DataBindingUtil.java:397 | The second loop of `trim` moves the end down past characters at most ' ', never below the start. It stops after a character above ' '. |
| DataBinding.TrimOfTrimmed | android/src/com/android/tools/idea/databinding/DataBindingUtil.java:397 | Trimming text that is already trimmed changes nothing. |
| DataBinding.LoneQuoteDefaultThrows | android/src/com/android/tools/idea/databinding/DataBindingUtil.java:397-400 | As written, `@{x, default="}` reaches `substring(1, 0)` and throws. |
| DataBinding.BindingExprDefaultAsWritten | android/src/com/android/tools/idea/databinding/DataBindingUtil.java:386-402 | The code as written gives null without the default keyword. Any default it returns is shorter than the expression. |
| DataBinding.Unquote | android/src/com/android/tools/idea/databinding/DataBindingUtil.java:398-400 | A value of at least two characters, quoted at both ends, loses exactly its two quotes. Any other value is kept. |
| DataBinding.BindingExprDefault | android/src/com/android/tools/idea/databinding/DataBindingUtil.java:386-402 | An expression without the default keyword gives None. The only failure is a last match ending at the very end of the expression (the substring throws). Wherever the code as written returns, the result is the same. |
| DataBinding.GetBindingExprDefault | android/src/com/android/tools/idea/databinding/DataBindingUtil.java:386-402 | The method with the matcher loop computes `BindingExprDefault`. |
| DataBinding.BindingExprDefaultOfClosedExpression | android/src/com/android/tools/idea/databinding/DataBindingUtil.java:383-397 | An expression closed by '}', as the documented contract requires, never fails. |
| DataBinding.BindingExprDefaultFindsValue | android/src/com/android/tools/idea/databinding/DataBindingUtil.java:391-401 | For `@{e,default=v}` with a trimmed, unquoted v free of commas, the result is v. This is the round trip from writing a default to reading it. |
| DataBinding.BindingExprDefaultFindsQuotedValue | android/src/com/android/tools/idea/databinding/DataBindingUtil.java:391-401 | For `@{e,default="v"}` with v free of commas, the result is v: one pair of surrounding double quotes is stripped. This is the round trip for a quoted default. |
| DataBinding.DefaultOfLastKeyword | android/src/com/android/tools/idea/databinding/DataBindingUtil.java:391-401 | For `@{e,default=w}` with w free of commas and not starting with white space, the last match ends where w starts. The result is w trimmed and unquoted. |
| DataBinding.LastMatchEndAfter | android/src/com/android/tools/idea/databinding/DataBindingUtil.java:394-396 | With no comma after a match, that match is the last one. |
| DataBinding.GetViewName | android/src/com/android/tools/idea/databinding/DataBindingUtil.java:257-263 | A `<view>` tag stands for its class attribute. Any other tag stands for its name. |
| DataBinding.GetViewClassName | android/src/com/android/tools/idea/databinding/DataBindingUtil.java:206-225 | A missing view name gives None. A qualified name, one containing '.', is returned unchanged. |
| DataBinding.SimpleNameInViewPackage | android/src/com/android/tools/idea/databinding/DataBindingUtil.java:209-210 | View, ViewGroup, TextureView and SurfaceView are qualified with `android.view.`. |
| DataBinding.SimpleNameInWebkitPackage | android/src/com/android/tools/idea/databinding/DataBindingUtil.java:211-212 | WebView is qualified with `android.webkit.`. |
| DataBinding.SimpleNameInWidgetPackage | android/src/com/android/tools/idea/databinding/DataBindingUtil.java:221 | Every other simple name not looked up is qualified with `android.widget.`. |
| DataBinding.ViewClassNameQualifiesSimpleName | android/src/com/android/tools/idea/databinding/DataBindingUtil.java:208-221 | Every simple tag name except merge, include and ViewStub becomes its framework package prefix followed by the name. |
| DataBinding.ViewClassNameAliasIsTagName | android/src/com/android/tools/idea/databinding/DataBindingUtil.java:208-221 | The alias of the class a simple framework tag stands for is the tag name again, so `getAlias` inverts `getViewClassName`. |
| NavActions.ActionEntriesKeys | designer/src/com/android/tools/idea/naveditor/property/NavActionsProperty.kt:37-46 | There is an entry for a title exactly when some action child has that title. Non-action children add nothing. |
| NavActions.ActionEntriesLastWins | designer/src/com/android/tools/idea/naveditor/property/NavActionsProperty.kt:39-46 | The entry for a title wraps the last action child with that title, which overwrote every earlier one. |
| NavActions.ActionEntries | designer/src/com/android/tools/idea/naveditor/property/NavActionsProperty.kt:38-46 | Every entry is named by its key and wraps exactly one child of the list. That child is an action and carries the entry's title. |
| NavActions.ActionTitle | designer/src/com/android/tools/idea/naveditor/property/NavActionsProperty.kt:40-45 | The title is the destination id, the popUpTo target with or without "Caller of ", or "Invalid Action". |
| NavActions.FlatChildren | designer/src/com/android/tools/idea/naveditor/property/NavActionsProperty.kt:37 | A child is in the flattened list exactly when it is a child of one of the components. |
| NavActions.ActionTitleOfDestination | designer/src/com/android/tools/idea/naveditor/property/NavActionsProperty.kt:40-41 | A child with a destination id is filed under that id, whatever its popUpTo says. |
| NavActions.ActionTitleOfPopUp | designer/src/com/android/tools/idea/naveditor/property/NavActionsProperty.kt:42-44 | Without a destination id, a child with a popUpTo is filed under it. The title gets the prefix "Caller of " exactly when popUpToInclusive is true. |
| NavActions.ActionTitleOfNeither | designer/src/com/android/tools/idea/naveditor/property/NavActionsProperty.kt:45 | A child with neither a destination id nor a popUpTo is filed under "Invalid Action". |
| NavActions.NavActionsProperty.RefreshList | designer/src/com/android/tools/idea/naveditor/property/NavActionsProperty.kt:34-47 | After the clear and the puts, the map is `ActionEntries` of all the components' children. It depends only on the components. |
| NavActions.NavActionsProperty.constructor | designer/src/com/android/tools/idea/naveditor/property/NavActionsProperty.kt:28-32 | A new property already holds the entries of its components. |
| Grid.CopyOf | designer/src/com/android/tools/idea/uibuilder/handlers/gridlayout/GridInfo.java:154 | `Arrays.copyOf` returns the requested length: the original elements first, then zeros. |
| Grid.Generated | designer/src/com/android/tools/idea/uibuilder/handlers/gridlayout/GridInfo.java:150-166 | The lines before the final one number `GeneratedLength`: the axis locations plus one per whole 32-pixel cell of the excess size. |
| Grid.LineLocations | designer/src/com/android/tools/idea/uibuilder/handlers/gridlayout/GridInfo.java:149-174 | The only failure is the index error. The lines are the generated lines, possibly without the last one, followed by one final line. There is at least one line. |
| Grid.LineLocationsFails | designer/src/com/android/tools/idea/uibuilder/handlers/gridlayout/GridInfo.java:151-172 | `initLineLocations` throws exactly when there are no axis locations and the layout exceeds its content by less than 32. |
| Grid.LineLocationsLength | designer/src/com/android/tools/idea/uibuilder/handlers/gridlayout/GridInfo.java:150-170 | With `d = layoutSize - gridInfoSize`, there are `axis.length + (d > 0 ? d/32 : 0)` lines. One more is added when the last generated line is not `layoutSize`. |
| Grid.LineLocationsLast | designer/src/com/android/tools/idea/uibuilder/handlers/gridlayout/GridInfo.java:172 | The last line is always `layoutSize - 1`. |
| Grid.LineLocationsContents | designer/src/com/android/tools/idea/uibuilder/handlers/gridlayout/GridInfo.java:154-166 | Before the final line, entries before `axis.length-1` are the axis locations and entry `axis.length-1` is the content size. Each later entry is the previous one plus 32. Without axis locations, entry i is 32·i. |
| Grid.LineLocationsSorted | designer/src/com/android/tools/idea/uibuilder/handlers/gridlayout/GridInfo.java:149-174 | Take a layout larger than its content, whose axis locations are in order up to the content size. Its lines are in order. |
| Grid.GenerateLines | designer/src/com/android/tools/idea/uibuilder/handlers/gridlayout/GridInfo.java:150-166 | The copy and the fill loop produce the generated lines. |
| Grid.InitLineLocations | designer/src/com/android/tools/idea/uibuilder/handlers/gridlayout/GridInfo.java:149-174 | The method returns a fresh array holding `LineLocations`, or the index error in the case where that function fails. |
| Grid.CopyOfArray | designer/src/com/android/tools/idea/uibuilder/handlers/gridlayout/GridInfo.java:169 | `Arrays.copyOf` on an array gives a fresh array holding `CopyOf` of its contents. |
| Grid.Shifted | designer/src/com/android/tools/idea/uibuilder/handlers/gridlayout/GridInfo.java:176-180 | Every location is moved by the distance, and the length is unchanged. |
| Grid.Translate | designer/src/com/android/tools/idea/uibuilder/handlers/gridlayout/GridInfo.java:176-180 | `translate` adds the distance to every element in place. |
| Grid.ShiftedSorted | designer/src/com/android/tools/idea/uibuilder/handlers/gridlayout/GridInfo.java:176-180 | Translating keeps the lines in order. |
| Grid.FirstCellFrom | designer/src/com/android/tools/idea/uibuilder/handlers/gridlayout/GridInfo.java:233-239 | The scan returns the first i with `lines[i] <= loc < lines[i+1]`. It fails with an assertion error only when no such i exists. |
| Grid.CellIndex | designer/src/com/android/tools/idea/uibuilder/handlers/gridlayout/GridInfo.java:222-240 | Fewer than two lines is the IllegalArgument error. A location before the first line gives 0, and one at or past the last line gives `length-2`. Every result lies in `[0, length-2]`. |
| Grid.CellIndexSorted | designer/src/com/android/tools/idea/uibuilder/handlers/gridlayout/GridInfo.java:222-240 | On ordered lines every location has a cell. A location between the first and the last line lies in the one cell whose lines enclose it. |
| Grid.CellIndexShifted | designer/src/com/android/tools/idea/uibuilder/handlers/gridlayout/GridInfo.java:222-240 | Moving the lines and the location by the same distance leaves the cell unchanged. So translating the lines into layout coordinates preserves row and column lookup. |
| Grid.GetIndex | designer/src/com/android/tools/idea/uibuilder/handlers/gridlayout/GridInfo.java:222-240 | The method with its scan loop returns `CellIndex` of the array's contents. |
| Grid.ContentWidth | designer/src/com/android/tools/idea/uibuilder/handlers/gridlayout/GridInfo.java:98-99 | The content width is at least 0 and at least every child's right edge. It is 0 or the right edge of some child. |
| Grid.ContentHeight | designer/src/com/android/tools/idea/uibuilder/handlers/gridlayout/GridInfo.java:98-100 | The same, for bottom edges. |
| Grid.GetSize | designer/src/com/android/tools/idea/uibuilder/handlers/gridlayout/GridInfo.java:92-105 | The maximum loop yields the content width and height. The size is (0, 0) without children. |
| Grid.CellOwnerLastWins | designer/src/com/android/tools/idea/uibuilder/handlers/gridlayout/GridInfo.java:186-196 | A cell inside a child's clipped spans holds that child unless a later child covers it too. |
| Grid.CellOwner | designer/src/com/android/tools/idea/uibuilder/handlers/gridlayout/GridInfo.java:182-197 | A cell that holds a child holds the id of some child whose clipped spans cover it. |
| Grid.CellOwnerEmpty | designer/src/com/android/tools/idea/uibuilder/handlers/gridlayout/GridInfo.java:182-197 | A cell is empty exactly when no child's clipped spans cover it. Every cell outside `[0,rowCount)×[0,columnCount)` is empty. |
| Grid.InitChildren | designer/src/com/android/tools/idea/uibuilder/handlers/gridlayout/GridInfo.java:182-197 | The nested loops leave in each cell of a fresh `rowCount × columnCount` table the `CellOwner` of that cell. |
| Grid.GridInfo.GetRow | designer/src/com/android/tools/idea/uibuilder/handlers/gridlayout/GridInfo.java:214-216 | The row of y is `CellIndex` over the horizontal lines. |
| Grid.GridInfo.GetColumn | designer/src/com/android/tools/idea/uibuilder/handlers/gridlayout/GridInfo.java:218-220 | The column of x is `CellIndex` over the vertical lines. |
| Grid.GridInfo.CellHasChild | designer/src/com/android/tools/idea/uibuilder/handlers/gridlayout/GridInfo.java:250-252 | The answer is false for any cell outside the grid. |
| Grid.AxisLineLocations | designer/src/com/android/tools/idea/uibuilder/handlers/gridlayout/GridInfo.java:111-112 | The lines of one axis, as computed and then translated by the offset. |
| Grid.InitVerticalLineLocations | designer/src/com/android/tools/idea/uibuilder/handlers/gridlayout/GridInfo.java:107-113 | The vertical lines span the width minus the horizontal padding and follow the horizontal axis. They are shifted by the layout's x plus its left padding. |
| Grid.InitHorizontalLineLocations | designer/src/com/android/tools/idea/uibuilder/handlers/gridlayout/GridInfo.java:115-121 | The horizontal lines span the height minus the vertical padding and follow the vertical axis. They are shifted by the layout's y plus its top padding. |
| Grid.AssembleGrid | designer/src/com/android/tools/idea/uibuilder/handlers/gridlayout/GridInfo.java:72-75 | The grid takes the counts and a table filled by `initChildren`. |
| Grid.NewGridInfo | designer/src/com/android/tools/idea/uibuilder/handlers/gridlayout/GridInfo.java:57-89 | A null child list gives IllegalArgument; an empty list goes ahead. A line computation that throws gives the index error. Otherwise a fresh grid describes the layout: lines, counts and occupancy. |
| Surface.RemoveFirst | designer/src/com/android/tools/idea/common/surface/DesignSurface.java:864-866 | `List.remove(Object)` removes one occurrence when there is one and changes nothing otherwise. |
| Surface.Without | designer/src/com/android/tools/idea/common/surface/DesignSurface.java:1465-1467 | The result keeps exactly the elements not in the argument. |
| Surface.RemoveFirstWithoutDuplicates | designer/src/com/android/tools/idea/common/surface/DesignSurface.java:864-866 | On a list without duplicates, `remove` removes that element and keeps the others in order. |
| Surface.WithoutKeepsNoDuplicates | designer/src/com/android/tools/idea/common/surface/DesignSurface.java:864-866 | Removing elements keeps a list free of duplicates. |
| Surface.RegisteredOnce | designer/src/com/android/tools/idea/common/surface/DesignSurface.java:859-862 | After `remove(l); add(l)`, l occurs exactly once, at the end. The other listeners keep their relative order, and the list stays free of duplicates. |
| Surface.Registered | designer/src/com/android/tools/idea/common/surface/DesignSurface.java:859-862 | After `remove(l); add(l)` the listener l is last. The listeners are those before, plus l. |
| Surface.RegisteredIdempotent | designer/src/com/android/tools/idea/common/surface/DesignSurface.java:859-862 | Registering the same listener twice is the same as registering it once. |
| Surface.RemoveLayersUndoesAddLayers | designer/src/com/android/tools/idea/common/surface/DesignSurface.java:1458-1467 | Removing layers that were just added restores the previous layers. |
| Surface.RemoveKey | designer/src/com/android/tools/idea/common/surface/DesignSurface.java:365-367 | Removing a model from the ordered keys and from the map keeps them describing the same models. |
| Surface.CallAll | designer/src/com/android/tools/idea/common/surface/DesignSurface.java:896-914 | The calls are one per model, in key order. |
| Surface.ClampAxis | designer/src/com/android/tools/idea/common/surface/DesignSurface.java:724-725 | The position is never negative and never past `view - extent`. It is 0 when the view is no larger than the extent, unchanged when already in range, and exactly `view - extent` when it lies at or past that bound. |
| Surface.ClampScrollPosition | designer/src/com/android/tools/idea/common/surface/DesignSurface.java:720-728 | Both axes are clamped independently. |
| Surface.ClampScrollPositionIdempotent | designer/src/com/android/tools/idea/common/surface/DesignSurface.java:720-728 | Clamping a clamped position leaves it where it is. |
| Surface.ZoomTypeAfter | designer/src/com/android/tools/idea/common/surface/DesignSurface.java:588-637 | SCREEN is the only failure. ACTUAL always records itself, and FIT/FIT_INTO record themselves when a scene view exists. IN and OUT clear the record when `setScale` (lines 762-766) changes the scale. IN and OUT without a scale change, and FIT/FIT_INTO without a scene view (the early return), keep the previous record. |
| Surface.DesignSurface.constructor | designer/src/com/android/tools/idea/common/surface/DesignSurface.java:120-163 | Every list and the map start empty. The zoom-listener list and the zoom type start absent. The surface starts inactive with no flag set. |
| Surface.DesignSurface.GetModel | designer/src/com/android/tools/idea/common/surface/DesignSurface.java:307-309 | The answer is the first-inserted model, or None exactly when there is none. |
| Surface.DesignSurface.GetSceneManager | designer/src/com/android/tools/idea/common/surface/DesignSurface.java:966-968 | A model's manager, or None exactly when it was not added. |
| Surface.DesignSurface.AddModelImpl | designer/src/com/android/tools/idea/common/surface/DesignSurface.java:326-338 | A model added before returns its manager and nothing changes. Otherwise the new manager goes under a new last key. |
| Surface.DesignSurface.RemoveModelImpl | designer/src/com/android/tools/idea/common/surface/DesignSurface.java:365-381 | For an absent model the method returns false and nothing changes. Otherwise it removes only that key and deactivates the model. It detaches that manager's layers and returns true. |
| Surface.DesignSurface.SetModel | designer/src/com/android/tools/idea/common/surface/DesignSurface.java:402-431 | Setting the current primary model changes nothing: keys, map, model calls and layers stay. Otherwise the old primary model is deactivated and its manager's layers are removed. The new model is the only key, with the created manager, and it is activated when the surface is active. For None the map ends empty. Afterwards `getModel` is the model given. |
| Surface.DesignSurface.ActivateSurface | designer/src/com/android/tools/idea/common/surface/DesignSurface.java:896-903 | An inactive surface activates each model in key order. The surface is active afterwards. |
| Surface.DesignSurface.DeactivateSurface | designer/src/com/android/tools/idea/common/surface/DesignSurface.java:905-914 | An active surface deactivates each model in key order. The surface is inactive afterwards. |
| Surface.DesignSurface.AddListener | designer/src/com/android/tools/idea/common/surface/DesignSurface.java:859-862 | The listener list becomes `Registered(old, l)` and stays free of duplicates. |
| Surface.DesignSurface.RemoveListener | designer/src/com/android/tools/idea/common/surface/DesignSurface.java:864-866 | The listener is removed and the others keep their order. |
| Surface.DesignSurface.AddPanZoomListener | designer/src/com/android/tools/idea/common/surface/DesignSurface.java:877-885 | The list is created on first use. Then the same rule as `addListener` applies. |
| Surface.DesignSurface.RemovePanZoomListener | designer/src/com/android/tools/idea/common/surface/DesignSurface.java:887-891 | Nothing happens before the list exists. Otherwise the listener is removed and the others keep their order. |
| Surface.DesignSurface.AddLayers | designer/src/com/android/tools/idea/common/surface/DesignSurface.java:1458-1460 | The given layers are appended in order. |
| Surface.DesignSurface.RemoveLayers | designer/src/com/android/tools/idea/common/surface/DesignSurface.java:1465-1467 | Exactly the layers not given are kept, in their order. |
| Surface.DesignSurface.RegisterIndicator | designer/src/com/android/tools/idea/common/surface/DesignSurface.java:1204-1213 | After disposal nothing changes. Otherwise the indicator is appended and the progress icon is shown. |
| Surface.DesignSurface.UnregisterIndicator | designer/src/com/android/tools/idea/common/surface/DesignSurface.java:1215-1223 | One registration is removed. The icon is visible exactly while an indicator remains. |
| Surface.DesignSurface.SetSkipResizeContent | designer/src/com/android/tools/idea/common/surface/DesignSurface.java:977-979 | The flag takes the given value. |
| Surface.DesignSurface.SkipContentResizeOnce | designer/src/com/android/tools/idea/common/surface/DesignSurface.java:981-983 | The once flag is set. |
| Surface.DesignSurface.ContentResizeSkipped | designer/src/com/android/tools/idea/common/surface/DesignSurface.java:988-1001 | The method returns `skip || once || zoomType != FIT` as it was before the call. The once flag is always false afterwards. |
| Surface.DesignSurface.IsSkipContentResize | designer/src/com/android/tools/idea/common/surface/DesignSurface.java:988-991 | The answer is true when either skip flag is set or the zoom type is not FIT. It is false only for FIT with neither flag set. |
| Surface.DesignSurface.Zoom | designer/src/com/android/tools/idea/common/surface/DesignSurface.java:588-637 | SCREEN throws and changes nothing. Any other type records the zoom type `ZoomTypeAfter` gives. |
| Surface.DesignSurface.SetScrollPosition | designer/src/com/android/tools/idea/common/surface/DesignSurface.java:720-728 | The viewport position becomes the clamped position. |

## Findings

| source | as written | input that shows it | evidently intended | confidence | as-written member | corrected member |
|---|---|---|---|---|---|---|
| android/src/com/android/tools/idea/databinding/DataBindingUtil.java:398-399 | The unquoting checks `startsWith("\"") && endsWith("\"")` only. A default that is a lone `"` passes the check, and `substring(1, 0)` then throws StringIndexOutOfBoundsException. | `@{x, default="}` | Keep a one-character value as it is, as the XmlAttribute variant does with its `text.length() > 1` guard (line 370) | not executed | DataBinding.LoneQuoteDefaultThrows | DataBinding.BindingExprDefault |

`DataBinding.BindingExprDefaultAsWritten` models the code as written.
`DataBinding.Unquote` is the guarded unquoting the corrected member uses.
The method `DataBinding.GetBindingExprDefault` computes the corrected result.

## Left out

- Reflection into the layoutlib GridLayout (`getAxisLocations`, `getDeclaredField`, `getInfo`, `getRowCount`/`getColumnCount`): the axis locations, counts and child spans are fields of `Grid.Layout`. The `NoSuchField`/`IllegalAccess` exceptions wrapped into IllegalArgumentException are not modelled. A missing `viewInfo` is not modelled either; only missing children are.
- Grid.InitChildren: span starts are `nat`, as GridLayout resolves them. A negative start, which would make Java throw an index exception, cannot be expressed. Row and column counts are `nat` for the same reason.
- Grid.GridInfo: `getVerticalLineLocations`, `getHorizontalLineLocations`, `getChildren`, `getRowCount` and `getColumnCount` are plain getters of the fields.
- Java `int` overflow is not modelled. Coordinates, sizes and the additions in `initLineLocations`, `translate`, `getSize` and the scroll clamp use unbounded integers.
- DesignSurface: the zoom and scale arithmetic is double precision with a 0.005 threshold. Whether `setScale` changed the scale, and whether a scene view exists, are parameters of `Zoom`. The centring of `zoom(IN)` on the selection is not modelled.
- DesignSurface: painting, the scroll pane, the glass pane and the progress panel are Swing. `progressVisible` stands for the icon's visibility.
- DesignSurface: the asynchronous rendering (`requestRender`, `whenCompleteAsync`), `reactivateInteractionManager`, `zoomToFit` and the listener notifications it schedules are not modelled, nor are the `synchronized` blocks.
- DesignSurface: registering and removing the model and configuration listeners, disposing the scene manager and cancelling the interaction on `deactivate` are calls into host objects. They are not recorded.
- Surface.DesignSurface.SetModel requires at most one model: the source asserts the map is empty after removing the primary model.
- `addModel`/`removeModel`, `getModels` and `getSceneManager()` without an argument are thin wrappers and are not modelled separately.
- DataBinding: upper-casing covers ASCII letters only. `StringUtil.capitalize` and Java's `Character.toUpperCase` also map other scripts.
- DataBinding: the text of the `default` keyword token is taken as "default". The SdkConstants values are the Android SDK's: `android.view.`, `android.webkit.`, `android.widget.`, `android.view.View`, `@{`, `@={`, and the tag names `view`, `merge`, `include`, `ViewStub`, `WebView`.
- DataBinding: the merge, include and ViewStub branches of `getViewClassName` read resource repositories. Their answers are the fields of `DataBinding.LayoutLookups`. An include without an answer falls back to `android.view.View`, as in the source.
- DataBinding: the PSI-bound parts are not part of this model: `getBindingExprDefault(XmlAttribute)`, `getQualifiedType`, `parsePsiType`, the type visitors, the BR and binding-class creation, the manifest lookup and the invalidation counters.
- DataBinding.ResolveImport: `DataBindingInfo.resolveImport` is modelled as a map from alias to imported type.
- Sessions: the `ExecutionManager` lookup is a host service. The running processes' session infos are the input sequence.
- NavActions: `ListProperty` (the `properties` map, its iteration order and the property machinery) is not part of this model. Entries are compared by title and wrapped child.
- Test sources, pure UI classes, wizard steps and generated constants of the repository are not part of this model.
