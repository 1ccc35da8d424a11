# Square Race, modelled in Dafny

This project models the core of a small pygame/pymunk arcade game, "Square Race", together with
its level editor and its media helpers.

In the game, coloured squares ("bricks") start with random velocities inside an arena of walls.
They race to touch a finish line. Each brick is a pymunk body with a box shape, and every wall,
invisible wall edge and finish line is a body paired with its own shape. Two collision handlers
are installed:
- a brick touching the finish line slows every body down;
- a brick touching anything else plays a hit sound.

The race ends as soon as a brick comes to rest, and the brick that touched the finish line wins.

The level editor shows a grid of 50-unit tiles and a single button below it, and goes through
four modes in turn: walls, start point, finish line, logo. In wall mode a click on a tile turns it
into a wall tile, or back into floor. In the other modes a click sets the start point, the ends
of the finish line or the logo's place. A press on the button closes the current mode and
writes its records; colours and the number of bricks are asked on the console. A run ends by
saving the level as records of walls, wall edges, the finish line and the bricks.

The control widgets (utils/games_generator/control_elements/) are a separate library:
- a basic button;
- a colour picker with a fixed number of swatches, and a strip of all palette colours;
- a number stepper with "-" and "+" buttons;
- a point picker;
- a tile board whose selected tiles keep their outline as line segments;
- a labelled row, `ControlElement`, that wraps one of these.

None of the other source files uses these widgets. The editor draws its own grid and its own
button.

The media helpers:
- name the screen recording;
- choose the newest recording;
- build a caption from the players' colours, using an emoji table that maps colours to symbols.

The model follows the source file by file, with one Dafny module per Python module. The
helper modules `Strings`, `Collections`, `Geometry`, `FileSelect` and `LevelData` correspond to
no Python module. They hold Python's string and list operations, rectangle geometry, the
recording filter shared by two files, and the level records. In the modules:
- values (colours, element parameters, level records, captions, emoji tables) are datatypes and
  functions;
- objects whose fields the source updates in place (buttons and their shared waiting lists, the
  tile grid, pymunk bodies and shapes, the element registry, the physics space, the game and
  the editor session) are classes with `modifies`/`reads` frames;
- the source's loops are methods with loop invariants, proved against specification functions
  on sequences.

The class-wide lists of the source are modelled as objects that every caller passes explicitly:
- `Element.items` is `Elements.Registry`;
- `ColorButton._waiting` is `ColorButtons.WaitingQueue`;
- `SelectPointButton._waiting` is `SelectPointButtons.PointQueue`;
- `ControlElement.control_elements` is `ControlElements.Registry`.

## Model

| member | source | states |
|---|---|---|
| Colors.MemberIndex | utils/colors.py:5-39 | the declaration position of a member leads back to that member |
| Colors.IndexMember | utils/colors.py:5-39 | each of the 35 positions holds the member that reports that position |
| Colors.All | utils/colors.py:41-43 | `get_all` lists 35 members, the member declared at position i at index i |
| Colors.AllComplete | utils/colors.py:41-43 | every member is in `get_all`, at its declaration position |
| Colors.AllNoDup | utils/colors.py:41-43 | `get_all` lists no member twice |
| Colors.BasicColors | utils/colors.py:45-62 | `get_basic_colors` lists 14 members, none twice |
| Colors.FindValue | utils/colors.py:4-39 | the search finds a listed member with the given value, or reports that no listed member has it |
| Colors.FromValue | utils/colors.py:4-39 | `Color(v)` finds a member whose value is v, and finds nothing exactly when no member has that value |
| Colors.FromValueValue | utils/colors.py:4-39 | looking a member up by its own value gives that member back |
| Colors.ValueInjective | utils/colors.py:5-39 | no two members share a value, so no member is an alias of another |
| Colors.ValueChannels | utils/colors.py:5-39 | every member's value has byte-sized channels and alpha 255 |
| Colors.FindName | utils/colors.py:64-65 | the search finds a listed member with the given name, or reports that no listed member has it |
| Colors.FromName | utils/games_generator/square_race_game_generator.py:185 | `getattr(Color, s)` finds a member named s, and finds nothing exactly when no member has that name |
| Colors.NameInjective | utils/colors.py:64-65 | `str` gives different members different names |
| Colors.FromNameName | utils/colors.py:64-65 | looking a member up by its own name gives that member back |
| Colors.NameUpperCase | utils/games_generator/square_race_game_generator.py:185 | member names are upper case, so `.upper()` leaves them as they are |
| Elements.ShapeGeometry | elements/element.py:38-45 | the shape is a segment iff both endpoints are given; a box iff not and a size is given; a polygon iff neither but a non-empty vertex list is given; a circle otherwise. Each shape carries exactly the matching arguments and the radius |
| Elements.DefaultIsCircle | elements/element.py:19-45 | with every default argument the shape is a circle of radius 0 |
| Elements.Body.constructor | elements/element.py:32 | a new body has the given mass, moment and body type, and sits at rest at the origin with no force and angle 0 |
| Elements.Shape.constructor | elements/element.py:39-52 | a new shape is attached to the given body and carries the given geometry, friction, elasticity, sensor flag, collision type, colour and group |
| Elements.Registry.constructor | elements/element.py:8 | the shared list of bodies and shapes starts empty |
| Elements.Element.constructor | elements/element.py:32-54 | a fresh body and a fresh shape carrying every given parameter, with the shape chosen by `ShapeGeometry`; exactly `[body, shape]` is appended to the shared list |
| Elements.BodiesAppend | elements/element.py:54 | appending one element's pair adds exactly that element's body to the registered bodies |
| Elements.ElementItemsContents | elements/element.py:54 | the bodies registered by a run of elements are exactly their bodies in build order, and likewise the shapes |
| Elements.MatchedTypes | elements/element.py:50 | elements built from parameters have the collision types those parameters ask for, in order |
| Elements.WellPairedAppend | elements/element.py:54 | a list built only by elements keeps alternating body, then a shape on that body |
| Brick.Params | elements/brick.py:7-29 | a brick is a dynamic body of mass 1 with infinite moment; its shape is a box of the given size; its collision type equals its group; position, velocity and colour are as given; the other parameters keep the element defaults |
| Brick.DefaultBrick | elements/brick.py:15-19 | `Brick()` is a red 15x15 box of group 2 and collision type 2 |
| Brick.New | elements/brick.py:21-29 | `Brick(...)` builds an element with those parameters and registers its body and shape |
| VictoryLine.Params | elements/victory_line.py:15-23 | the finish line is a red segment a to b of the given radius, on a kinematic body, with collision type equal to its group |
| VictoryLine.DefaultVictoryLine | elements/victory_line.py:12-13 | by default the radius is 5 and the collision type is 3 |
| VictoryLine.New | elements/victory_line.py:15-23 | `VictoryLine(...)` builds an element with those parameters and registers its body and shape |
| Boundary.Params | elements/boundary.py:13-19 | a wall tile is a box of the given size on a static body, in the given colour and group, with collision type 0 |
| Boundary.DefaultBoundary | elements/boundary.py:8-11 | by default a wall is a 30x30 box of group 1 in (144, 144, 120, 100) |
| Boundary.New | elements/boundary.py:13-19 | `Boundary(...)` builds an element with those parameters and registers its body and shape |
| BoundaryLine.Params | elements/boundary_line.py:5-21 | a wall edge is a segment a to b of radius 1 on a static body, fully transparent, with collision type 0 and the given group |
| BoundaryLine.New | elements/boundary_line.py:16-21 | `BoundaryLine(...)` builds an element with those parameters and registers its body and shape |
| Geometry.FirstHit | utils/games_generator/control_elements/color_range_button.py:52-55 | the search returns the first rectangle that contains the point, and returns none exactly when no rectangle contains it |
| Geometry.FloorDiv | utils/games_generator/control_elements/color_button.py:65 | Python's `//`: the quotient rounds toward negative infinity, for either sign of the divisor |
| Geometry.StripsDisjoint | utils/games_generator/control_elements/color_button.py:68-73 | swatches laid side by side never overlap, so a point lies in at most one of them |
| Geometry.StripsContiguous | utils/games_generator/control_elements/color_range_button.py:36-38 | each swatch ends where the next one begins |
| Geometry.EdgesDistinct | utils/games_generator/control_elements/tiles.py:68-73 | a tile of non-zero size has four different edges |
| Geometry.NeighbourEdgesAgree | utils/games_generator/control_elements/tiles.py:68-73 | a tile's right edge is its right neighbour's left edge, and its bottom edge is the top edge of the tile below, with the same orientation |
| Collections.RemoveFirst | utils/games_generator/control_elements/select_point_button.py:65 | `list.remove(x)` drops the first occurrence of x and nothing else |
| Collections.RemoveFirstNoDup | utils/games_generator/control_elements/select_point_button.py:63-65 | in a list without repeats, removing x leaves a list without repeats that holds everything but x |
| Collections.ToggleMembership | utils/games_generator/control_elements/color_button.py:86-91 | "remove if present, else append" keeps a list free of repeats and flips exactly the membership of x |
| Collections.ToggleTwice | utils/games_generator/control_elements/tiles.py:60-65 | toggling x twice gives back the same members, and the very same list when x was absent |
| Collections.ToggleOther | utils/games_generator/control_elements/tiles.py:74-77 | toggling x leaves the membership of every other element unchanged |
| Collections.ToggleNoDup | utils/games_generator/control_elements/color_button.py:86-91 | toggling keeps a list free of repeats |
| Collections.ToggleEachMembership | utils/games_generator/control_elements/color_button.py:84-91 | toggling distinct elements one by one flips exactly their membership and keeps the list free of repeats |
| Collections.ToggleEachOther | utils/games_generator/control_elements/tiles.py:58-65 | an element that no toggle touches keeps its membership |
| Collections.Range | utils/games_generator/control_elements/tiles.py:37 | `range(start, stop, step)`: element i is start + i·step, every element lies before stop, and the next value would not |
| Collections.RangeNoDup | utils/games_generator/control_elements/tiles.py:37 | a range with a positive step has no repeats |
| Strings.Lower | games/game_base.py:44 | `str.lower()` keeps the length and lower-cases each character |
| Strings.ReplaceChar | games/game_base.py:44 | `s.replace(a, b)` for characters keeps the length and replaces exactly the occurrences of a |
| Strings.Upper | utils/games_generator/game_generator_base.py:28 | `str.upper()` keeps the length and upper-cases each character |
| Strings.CaseFolding | utils/games_generator/square_race_game_generator.py:185 | after `lower()` no ASCII capital is left; `lower()` and `upper()` are idempotent, and `upper()` of the lower-cased string is `upper()` of the string itself (and the other way round), so a colour name typed in any case reaches the same member |
| Strings.RemoveChar | utils/media_uploaders/reel_uploader.py:23 | `s.replace(a, '')` leaves no a, is no longer than s, and holds exactly the characters of s other than a |
| Strings.Split | utils/media_uploaders/reel_uploader.py:24 | `s.split(c)` gives at least one piece, and no piece contains c |
| Strings.JoinSplit | utils/media_uploaders/reel_uploader.py:21-24 | splitting at c and joining with c again gives back the original string |
| Strings.JoinStartsWith | utils/media_uploaders/reel_uploader.py:48 | a joined string starts with its first part |
| Strings.JoinEndsWith | utils/media_uploaders/reel_uploader.py:48 | a joined string ends with its last part |
| Strings.TitleFrom | utils/media_uploaders/reel_uploader.py:20 | title-casing keeps the length, and a character is a letter afterwards exactly when it was one before |
| Strings.TitleIdempotent | utils/media_uploaders/reel_uploader.py:20 | title-casing a title-cased string changes nothing |
| Strings.LexLeReflexive | utils/game_recorder/game_recorder.py:70 | the code-point order on strings that `max` uses is reflexive |
| Strings.LexLeTotal | utils/game_recorder/game_recorder.py:70 | that order is total |
| Strings.LexLeTransitive | utils/game_recorder/game_recorder.py:70 | that order is transitive |
| Strings.LexLeAntisymmetric | utils/game_recorder/game_recorder.py:70 | that order is antisymmetric |
| Strings.LexLeCommonPrefix | utils/game_recorder/game_recorder.py:70 | a common prefix does not change how two strings compare |
| Strings.MaxString | utils/game_recorder/game_recorder.py:70 | `max` of a non-empty list of strings is one of them, and every listed string is below or equal to it |
| Strings.MaxStringUnique | utils/game_recorder/game_recorder.py:70 | a listed string that all others are below is the one `max` returns |
| Strings.NatToString | utils/game_recorder/game_recorder.py:31 | the decimal rendering of a natural number is a non-empty string of digits |
| Strings.IntToString | utils/game_recorder/game_recorder.py:31 | the decimal rendering of an int is non-empty and starts with `-` exactly when the number is negative |
| Strings.ParseNatToString | utils/game_recorder/game_recorder.py:31 | reading the digits back gives the same number |
| Strings.IntToStringInjective | utils/game_recorder/game_recorder.py:31 | different numbers render differently |
| Buttons.Button.constructor | utils/games_generator/control_elements/button.py:38-43 | the button has the rectangle at the given corner and size, and the given colour, value and frame flag |
| Buttons.Button.SetValue | utils/games_generator/control_elements/button.py:57-58 | a value other than None replaces the stored one; None keeps it |
| Buttons.Button.GetValue | utils/games_generator/control_elements/button.py:60-61 | the stored value is returned whatever the mouse position |
| Buttons.ClickCorners | utils/games_generator/control_elements/button.py:54-55 | a click hits the top-left corner but not the bottom-right one, nor a point just left of the button |
| Buttons.HitMembers | utils/games_generator/control_elements/color_button.py:84-85 | the buttons a click hits are exactly the listed buttons containing the point |
| Buttons.HitNoDup | utils/games_generator/control_elements/color_button.py:84-85 | among distinct buttons, the hits are distinct |
| RangeButtons.RangeButton.constructor | utils/games_generator/control_elements/range_button.py:40-57 | "-" and "+" are framed gray 10x10 buttons 5 units down at the left and right ends; the body lies between them; value, step and range are as given |
| RangeButtons.RangeButton.SetValue | utils/games_generator/control_elements/range_button.py:59-69 | the value argument is ignored; the number moves down for a click in "-" and then up for a click in "+" |
| RangeButtons.RangeButton.Click | utils/games_generator/control_elements/range_button.py:71-73 | a click hits the range widget exactly when the point is in "-" or "+"; a point it does not take leaves every number as it is |
| RangeButtons.ClickedEffect | utils/games_generator/control_elements/range_button.py:66-69 | a click in "-" alone gives max(v - step, min); a click in "+" alone gives min(v + step, max); a click in neither keeps v |
| RangeButtons.ClickedInRange | utils/games_generator/control_elements/range_button.py:66-69 | with a non-negative step, a number within the range stays within it |
| RangeButtons.ClickedBounded | utils/games_generator/control_elements/range_button.py:66-69 | one click moves the number by at most one step, in the button's direction |
| RangeButtons.SmallButtonsApart | utils/games_generator/control_elements/range_button.py:40-53 | with a body of non-negative width, no click lies in both small buttons |
| ColorButtons.WaitingQueue.constructor | utils/games_generator/control_elements/color_button.py:19 | the shared waiting list starts empty |
| ColorButtons.ColorButton.constructor | utils/games_generator/control_elements/color_button.py:21-41 | the button is built with n swatches; a single swatch takes the given colour, and otherwise swatch i takes palette colour i |
| ColorButtons.ColorButton.ResetNColors | utils/games_generator/control_elements/color_button.py:53-73 | there are n unframed swatches side by side, `w // n` wide; a surviving swatch keeps its colour and a new one takes the palette colour at its position; a one-swatch reset with a colour makes that colour the palette |
| ColorButtons.ColorButton.SetValue | utils/games_generator/control_elements/color_button.py:76-91 | with no position nothing changes; otherwise each swatch the click hits is toggled in the shared queue and framed exactly when it was not queued; no swatch's colour or value changes |
| ColorButtons.ColorButton.ClickAt | utils/games_generator/control_elements/color_button.py:84-91 | the loop: the queue becomes the old queue with the hit swatches toggled in order; frames follow; colours and values are kept; the queue stays free of repeats |
| ColorButtons.ToggleSwatch | utils/games_generator/control_elements/color_button.py:86-91 | one hit swatch is toggled in the queue, and framed exactly when it was not queued before |
| ColorButtons.ColorButton.GetValue | utils/games_generator/control_elements/color_button.py:93-105 | with no position, the first swatch's colour; otherwise the colour of the first swatch under the click, or none when no swatch is under it |
| ColorButtons.GetValueOfSwatch | utils/games_generator/control_elements/color_button.py:101-105 | a click inside swatch i reads swatch i's colour |
| ColorButtons.SetWaiting | utils/games_generator/control_elements/color_button.py:43-51 | given a colour and a non-empty queue, the front swatch leaves the queue, takes the colour and loses its frame; otherwise nothing changes |
| ColorButtons.QueueStaysDistinct | utils/games_generator/control_elements/color_button.py:48-91 | clicks and handed-out colours keep the shared queue free of repeats |
| SelectPointButtons.PointQueue.constructor | utils/games_generator/control_elements/select_point_button.py:16 | the shared waiting list starts empty |
| SelectPointButtons.PointQueue.IsSelectMode | utils/games_generator/control_elements/select_point_button.py:75-76 | select mode holds exactly when some button is in the waiting list |
| SelectPointButtons.SelectPointButton.constructor | utils/games_generator/control_elements/select_point_button.py:18-36 | a white, unframed button without a value, over a white area button at the given corner and size |
| SelectPointButtons.SelectPointButton.SetValue | utils/games_generator/control_elements/select_point_button.py:38-59 | a 2-tuple value is stored and nothing else changes; otherwise a click on the button toggles it in the shared list, framed exactly when it was not waiting, and a button that joins the list turns select mode on |
| SelectPointButtons.SetWaiting | utils/games_generator/control_elements/select_point_button.py:61-72 | the list becomes `Kept` (the walk over a list that shrinks under it); each button that left takes the point and loses its frame; the others are unchanged |
| SelectPointButtons.Walk | utils/games_generator/control_elements/select_point_button.py:68-72 | the loop ends with the list the index-by-index walk leaves, with removed buttons given the point and unframed |
| SelectPointButtons.RemoveAtIndex | utils/games_generator/control_elements/select_point_button.py:70 | in a list without repeats, removing button i drops exactly index i |
| SelectPointButtons.SweepIsKept | utils/games_generator/control_elements/select_point_button.py:68-72 | the walk from index i keeps the first i buttons and then what `Kept` keeps |
| SelectPointButtons.KeptNoDup | utils/games_generator/control_elements/select_point_button.py:68-72 | the pass leaves a list without repeats |
| SelectPointButtons.KeptMembers | utils/games_generator/control_elements/select_point_button.py:68-72 | every button whose area misses the point stays; every button that leaves had the point in its area |
| SelectPointButtons.KeptExactWithoutNeighbours | utils/games_generator/control_elements/select_point_button.py:68-72 | when no two neighbours both hold the point, exactly the buttons holding the point leave |
| SelectPointButtons.SecondOfNeighboursSkipped | utils/games_generator/control_elements/select_point_button.py:68-72 | of the first two neighbours that both hold the point, the first leaves and the second stays |
| SelectPointButtons.KeptPrefixFree | utils/games_generator/control_elements/select_point_button.py:68-72 | the first button holding the point leaves, and the button after it is always kept |
| Tiles.GridIndex | utils/games_generator/control_elements/tiles.py:35-38 | the comprehension runs x in the outer loop: grid point (a, b) is tile a·(number of rows) + b, the step-sized square at (xs[a], ys[b]) |
| Tiles.TileButton.constructor | utils/games_generator/control_elements/tiles.py:19-26 | the editor board starts with tiles laid out as the grid of `range` values over its area, no selected tile, and the four frame lines |
| Tiles.TileButton.ResetSize | utils/games_generator/control_elements/tiles.py:32-45 | new framed tiles of the tile colour, one per grid point, column by column; the selection is emptied and the lines are the frame again |
| Tiles.NewGrid | utils/games_generator/control_elements/tiles.py:35-38 | the comprehension's loops: distinct new tiles whose rectangles are exactly the grid, in order |
| Tiles.NewColumn | utils/games_generator/control_elements/tiles.py:35-38 | its inner loop: one new framed tile per y of the column, in order |
| Tiles.TileButton.ResetColor | utils/games_generator/control_elements/tiles.py:47-55 | with neither colour given nothing changes; otherwise the given colours replace the old ones and every tile is recoloured: border colour when selected, tile colour when not |
| Tiles.TileButton.SetValue | utils/games_generator/control_elements/tiles.py:57-77 | the selection becomes the old one with the clicked tiles toggled, the lines become the old ones with the clicked tiles' four edges toggled, a clicked tile takes the tile colour when it was selected and the border colour when not, and colours that agreed with the selection still agree |
| Tiles.TileButton.Walk | utils/games_generator/control_elements/tiles.py:58-77 | the loop itself, with the same selection, lines and colours |
| Tiles.TileButton.ToggleTile | utils/games_generator/control_elements/tiles.py:60-65 | one tile is toggled in the selection and coloured by whether it was selected |
| Tiles.TileButton.ToggleEdges | utils/games_generator/control_elements/tiles.py:66-77 | the inner loop: the tile's left, top, right and bottom edges are toggled in the lines, in that order |
| Tiles.QueueFree | utils/games_generator/control_elements/tiles.py:60-64 | a click keeps the selection free of repeats |
| Tiles.ClickFlipsSelection | utils/games_generator/control_elements/tiles.py:58-65 | after a click, a tile is selected exactly when it was selected before or it was clicked, but not both |
| Tiles.AgreeAfterClick | utils/games_generator/control_elements/tiles.py:51-65 | when colours matched the selection before a click (border colour for selected tiles), they match it after the click |
| Tiles.MissChangesNothing | utils/games_generator/control_elements/tiles.py:58-59 | a click on no tile changes neither the selection nor the lines |
| Tiles.EdgesSymmetricDifference | utils/games_generator/control_elements/tiles.py:68-77 | toggling a tile's edges gives the symmetric difference of the lines and those edges, still free of repeats |
| Tiles.SharedEdgeCancels | utils/games_generator/control_elements/tiles.py:68-77 | clicking two neighbouring tiles leaves the edge they share as it was, so lines only remain around the outside of a selected region |
| Tiles.ToggleTileTwice | utils/games_generator/control_elements/tiles.py:57-77 | clicking the same tile twice gives back the same lines |
| ColorRangeButtons.Make | utils/games_generator/control_elements/color_range_button.py:32-38 | the picker has one swatch per palette colour, swatch i being the i-th strip of width `w // 35` and having the i-th palette colour |
| ColorRangeButtons.GetValue | utils/games_generator/control_elements/color_range_button.py:44-55 | no position gives none; otherwise the colour of the first swatch under the click, and none exactly when no swatch is under it |
| ColorRangeButtons.EachColourOnce | utils/games_generator/control_elements/color_range_button.py:36-38 | every palette colour has exactly one swatch |
| ColorRangeButtons.ClickSwatch | utils/games_generator/control_elements/color_range_button.py:36-55 | a click inside strip i reads palette colour i |
| ColorRangeButtons.ClickColumn | utils/games_generator/control_elements/color_range_button.py:35-55 | a click in the swatch row reads the palette colour at index `(x - x0) // w` |
| ColorRangeButtons.SwatchesFit | utils/games_generator/control_elements/color_range_button.py:35-37 | the swatches fill the width except for fewer than 35 units at the right end |
| ControlElements.Dispatch | utils/games_generator/control_elements/control_element.py:46-63 | a colour count makes a colour picker; otherwise an integer value with a range and a step makes a range button; otherwise both area corners make a point picker: each of these if and only if its condition holds |
| ControlElements.PlainOtherwise | utils/games_generator/control_elements/control_element.py:59-63 | a plain button is made exactly when none of the three cases applies |
| ControlElements.RangeNeedsAllThree | utils/games_generator/control_elements/control_element.py:50 | without all of an integer value, a range and a step, the row falls through to a point picker or a plain button |
| ControlElements.Registry.constructor | utils/games_generator/control_elements/control_element.py:19 | the shared registry starts empty |
| ControlElements.ControlElement.constructor | utils/games_generator/control_elements/control_element.py:42-66 | a 100-wide white label holding the name, an inner control of the dispatched kind over the rest of the row, and the registry entry for the name replaced by this row's control |
| ControlElements.ControlElement.SetValue | utils/games_generator/control_elements/control_element.py:72-73 | the arguments reach the inner control, with each kind's own effect on its queue, frames, colours and values, as the inner widget's own contract states it; the queue of a picker of the other kind is left alone, and so is the row's own value |
| ControlElements.ControlElement.GetValue | utils/games_generator/control_elements/button.py:60-61 | the inherited `get_value` returns the row's own value, the one the constructor was given, and not the inner control's |
| ControlElements.ControlElement.Click | utils/games_generator/control_elements/button.py:54-55 | the inherited `click` tests the whole row's rectangle, label included; a row that is hit has a positive width and height |
| ControlElements.RowIsLabelAndControl | utils/games_generator/control_elements/button.py:54-55 | the inherited `click` tests the whole row: for a row at least as wide as its label, a point hits it exactly when it hits the label or the inner control's rectangle, and never both |
| FileSelect.Keep | utils/game_recorder/game_recorder.py:64 | the comprehension keeps exactly the listed names that pass the filter, in listing order |
| FileSelect.Newest | utils/game_recorder/game_recorder.py:66-70 | no candidate means none (where `max` would raise); otherwise a candidate that every candidate is below in string order |
| FileSelect.SelectAsWritten | utils/game_recorder/game_recorder.py:64-70 | with the filter as written (starts with the prefix, ends with "mp4"): none exactly when no file passes, otherwise the greatest passing file |
| FileSelect.PrefixCollision | utils/game_recorder/game_recorder.py:64 | as written, the prefix "name 1" picks "name 10.mp4" over "name 1.mp4" |
| FileSelect.Select | utils/game_recorder/game_recorder.py:64-70 | the same choice with the corrected filter, where a digit may not follow the prefix |
| FileSelect.IsRecordingSeparatesNumbers | utils/game_recorder/game_recorder.py:31-64 | under the corrected filter no file is the recording of two different game numbers |
| FileSelect.PrefixCollisionFixed | utils/game_recorder/game_recorder.py:64 | on the same listing the corrected filter picks "name 1.mp4" |
| GameRecorder.RecordingName | utils/game_recorder/game_recorder.py:31 | the name is the game's name, a space, then the game number in decimal |
| GameRecorder.RecordingNameInjective | utils/game_recorder/game_recorder.py:31 | different game numbers give different recording names |
| GameRecorder.MoveFileToTargetDir | utils/game_recorder/game_recorder.py:63-73 | as the code writes it: without any capture that starts with the recording name and ends with "mp4" the file is "not saved"; otherwise the moved file is such a capture that every other one is below |
| GameRecorder.MovedIsTheGreatest | utils/game_recorder/game_recorder.py:64-70 | the moved file is determined by the candidates alone: a candidate that all are below is the one moved |
| GameRecorder.MovesAnotherGamesFile | utils/game_recorder/game_recorder.py:64-70 | as written, with "name 1.mp4" and "name 10.mp4" in the captures, stopping game 1 moves game 10's file |
| GameRecorder.MoveFileToTargetDirFixed | utils/game_recorder/game_recorder.py:63-73 | the corrected choice: the same, with the recording name not followed by a further digit |
| GameRecorder.MovedBelongsToTheGame | utils/game_recorder/game_recorder.py:64-70 | with the corrected choice, the file moved for game m is not a recording of any other game number |
| ReelUploader.FilePrefix | utils/media_uploaders/reel_uploader.py:18 | game number -1 gives the bare name; any other gives the recording name |
| ReelUploader.MakeTitle | utils/media_uploaders/reel_uploader.py:20 | the title is the game-controller emoji, a space, the title-cased name, a space and the chequered flag |
| ReelUploader.HashTags | utils/media_uploaders/reel_uploader.py:21-30 | the tags are "#game", the lower-cased name without spaces, each word of it, and the five fixed tags, joined by " #" |
| ReelUploader.HashTagsShape | utils/media_uploaders/reel_uploader.py:21-30 | so the hashtags start with "#game #" and end with "satisfying" |
| ReelUploader.NewUploader | utils/media_uploaders/reel_uploader.py:15-32 | the uploader holds the file prefix, name, title, hashtags, text and colours as the constructor computes them |
| ReelUploader.SelectEntries | utils/media_uploaders/reel_uploader.py:46 | the kept table entries are exactly those whose colour value a player has |
| ReelUploader.MappingInOrder | utils/media_uploaders/emojis.py:19-55 | the emoji table lists the colours in their declaration order, each once |
| ReelUploader.SelectKeepsOrder | utils/media_uploaders/reel_uploader.py:46 | the kept entries stay in declaration order |
| ReelUploader.SelectDependsOnColourSet | utils/media_uploaders/reel_uploader.py:46 | only which colours the players have matters, not their order or repetition |
| ReelUploader.PlayerEmojis | utils/media_uploaders/reel_uploader.py:46 | at most one emoji per palette colour |
| ReelUploader.PlayerEmojisContents | utils/media_uploaders/reel_uploader.py:46 | each player's palette colour puts its emoji in the versus line, in declaration order |
| ReelUploader.CaptionTexts | utils/media_uploaders/reel_uploader.py:42-47 | the caption has two or three lines |
| ReelUploader.GetCaption | utils/media_uploaders/reel_uploader.py:42-48 | the caption is those lines joined by newlines |
| ReelUploader.CaptionShape | utils/media_uploaders/reel_uploader.py:42-48 | the caption starts with the title and ends with a newline and the hashtags |
| ReelUploader.CaptionText | utils/media_uploaders/reel_uploader.py:44 | a non-empty text is the caption's second line; an empty or missing one is left out |
| ReelUploader.VideoFile | utils/media_uploaders/reel_uploader.py:35 | as the code writes it: the video uploaded is the greatest name that starts with the file prefix and ends with "mp4", and there is none when no such name is found (where `max` would raise) |
| ReelUploader.VideoFileFixed | utils/media_uploaders/reel_uploader.py:35 | the corrected choice: the same, with the prefix not followed by a further digit |
| ReelUploader.UploadedBelongsToTheGame | utils/media_uploaders/reel_uploader.py:35 | with the corrected choice, the video uploaded for game m is not a recording of any other game number |
| Emojis.Chr | utils/media_uploaders/emojis.py:17 | `chr` gives the character of that code point |
| Emojis.Span | utils/media_uploaders/emojis.py:17 | a range gives its end - start + 1 characters in code-point order |
| Emojis.ExtendAll | utils/media_uploaders/emojis.py:15-17 | the loop builds the concatenation of the ranges' characters, range after range |
| Emojis.ConcatLength | utils/media_uploaders/emojis.py:15-17 | the list holds end - start + 1 characters for each range |
| Emojis.AllEmojisLength | utils/media_uploaders/emojis.py:3-17 | `ALL_EMOJIS` holds 1850 characters |
| Emojis.ConcatMembership | utils/media_uploaders/emojis.py:15-17 | a character is listed exactly when its code point lies in one of the ranges |
| Emojis.ConcatNoDup | utils/media_uploaders/emojis.py:3-17 | ranges that share no code point list every character once |
| Emojis.AllEmojisNoDup | utils/media_uploaders/emojis.py:3-17 | `ALL_EMOJIS` has no repeats |
| Emojis.EmojiRangesScalar | utils/media_uploaders/emojis.py:3-12 | every code point in the ranges is a valid character, so `chr` never fails |
| Emojis.MappingInDeclarationOrder | utils/media_uploaders/emojis.py:19-55 | the table has 35 entries, entry i being colour i |
| Emojis.EmojiOf | utils/media_uploaders/emojis.py:19-55 | every colour has an entry, and the lookup gives that entry's emoji |
| Emojis.MappingNotInjective | utils/media_uploaders/emojis.py:29-36 | BLUE, LIGHT_BLUE and NAVY are different colours with the same emoji |
| GameBase.SnakeName | games/game_base.py:44 | the snake name keeps the name's length and has no spaces |
| GameBase.CountPrefixed | games/game_base.py:46 | the count is at most the listing's length, and zero exactly when no file starts with the prefix |
| GameBase.CountPrefixedMonotone | games/game_base.py:45-46 | a shorter prefix matches at least as many files |
| GameBase.GameNumber | games/game_base.py:45-46 | a given number is kept; -1 becomes one less than the number of data files of the game |
| GameBase.DataFileName | games/game_base.py:47 | the data file is "snake_data_" followed by the number and ".json" |
| GameBase.DataFileNameInjective | games/game_base.py:47 | different level numbers open different files |
| GameBase.FirstStop | games/game_base.py:105-113 | the first frame after which the loop has stopped, with every earlier frame keeping it running, or none when every frame keeps it running |
| GameBase.OneFlagIsEnough | games/game_base.py:109 | for any flags and events, a single true finish flag stops the loop |
| GameBase.NoFlagKeepsRunning | games/game_base.py:109-113 | without a quit event, the loop goes on exactly when no finish flag is true |
| GameBase.Teardown | games/game_base.py:126-131 | after the loop, in this order: stop the recording first exactly when there is a recorder, then exactly one of upload (when there is an uploader) or sleep (when there is none), and quit pygame last; two or three actions in all |
| GameBase.Game.constructor | games/game_base.py:43-75 | the game's number and data file follow from the name and the data files; there is a recorder exactly when recording and an uploader exactly when recording and uploading, under the game's recording name; the game is running |
| GameBase.Game.QuitHandler | games/game_base.py:179-180 | a quit event stops the game |
| GameBase.Game.RunFrame | games/game_base.py:109-113 | after a frame the game runs on exactly when no finish flag is true and no quit event came |
| GameBase.Game.Run | games/game_base.py:102-131 | the loop runs frame by frame up to and including the first frame that stops it; once it has stopped, the log holds the recording start, then the teardown; if no frame stops it, all frames run and the game is still running |
| SquareRaceGame.SnakeNameOfGame | games/square_race_game.py:11 | "Square Race Game" has the snake name "square_race_game" |
| SquareRaceGame.BuildAll | games/square_race_game.py:33-38 | one element per record, in order, each built with its record's parameters, and registered in that order |
| SquareRaceGame.BuildLevel | games/square_race_game.py:33-39 | the finish lines, walls, wall lines and bricks are built in that order, and every brick's body is then among the registered bodies |
| SquareRaceGame.PlayersColor | games/square_race_game.py:43-44 | the players' colours are the bricks' configured colours, in configuration order |
| SquareRaceGame.PlayersAppearInCaption | games/square_race_game.py:43-44 | every brick's colour puts its emoji in the caption |
| SquareRaceGame.FinishFlags | games/square_race_game.py:46-47 | one flag per brick, true exactly when that brick is at rest |
| SquareRaceGame.OneBrickAtRestEndsTheRace | games/square_race_game.py:46-47 | a single brick at rest stops the main loop after the frame |
| SquareRaceGame.MovingBricksKeepTheRaceGoing | games/square_race_game.py:46-47 | while every brick moves and nobody quits, the loop goes on |
| SquareRaceGame.Trunc | games/square_race_game.py:57 | Python's `int` on a float truncates toward zero |
| SquareRaceGame.Slowed | games/square_race_game.py:57 | the slowed velocity is each component divided by 40, truncated |
| SquareRaceGame.SlowedComponent | games/square_race_game.py:55-57 | slowing keeps each component's sign, never enlarges it, and stops components smaller than 40 in size |
| SquareRaceGame.SlowedTruncates | games/square_race_game.py:57 | -41 becomes -1, where floor division would give -2 |
| SquareRaceGame.Space.constructor | games/square_race_game.py:39 | a new space holds no bodies, no shapes and no handlers |
| SquareRaceGame.VictoryLineCollisionHandler | games/square_race_game.py:53-58 | every body of the space is slowed, nothing else about it changes, and the contact is not processed |
| SquareRaceGame.Begin | games/square_race_game.py:53-70 | a contact is processed exactly when its handler is the hit handler |
| SquareRaceGame.Key | games/square_race_game.py:62-63 | handlers are stored under the sorted pair of collision types, so both orders of a pair reach the same handler |
| SquareRaceGame.Processes | games/square_race_game.py:58-70 | a contact between two types is dropped exactly when the handler of their pair, in either order, is the win handler |
| SquareRaceGame.ProcessesSymmetric | games/square_race_game.py:62-76 | which shape of a contact comes first does not matter |
| SquareRaceGame.WinRowSpec | games/square_race_game.py:61-64 | the inner win loop gives the win handler to exactly the pairs joining this brick's type to a line type, in either order, and keeps every other pair |
| SquareRaceGame.WinsSpec | games/square_race_game.py:60-64 | the win registration gives exactly the pairs {line type, brick type} the win handler and keeps the rest |
| SquareRaceGame.HitCellSpec | games/square_race_game.py:74-77 | the innermost hit loop gives the hit handler to exactly the pairs {brick type, shape type} for each shape whose type is neither the brick's nor one in the skip list (the code skips only the current line's type), replacing any handler the pair had in either order, and keeps the rest |
| SquareRaceGame.HitRowSpec | games/square_race_game.py:73-77 | over all lines, the pair {brick type, shape type} gets the hit handler exactly when the types differ and some line's type differs from the shape's |
| SquareRaceGame.HitsSpec | games/square_race_game.py:72-77 | the hit registration gives exactly the hit pairs the hit handler, whatever handler they had before, and keeps the rest |
| SquareRaceGame.RegisteredPairs | games/square_race_game.py:52-77 | after both registrations every key is a sorted pair, exactly the win and hit pairs have a handler, a hit pair overrides a win pair, and no hit pair joins a type to itself |
| SquareRaceGame.WinPairsSurvive | games/square_race_game.py:60-77 | with one finish-line type that no brick shares, a brick's contact with the finish line is not processed |
| SquareRaceGame.WinLostWithTwoLineTypes | games/square_race_game.py:72-77 | when some finish line has another type, the pair {brick type, line type} ends with the hit handler, so a brick's contact with that line is processed |
| SquareRaceGame.TwoLineTypesLoseTheWin | games/square_race_game.py:60-77 | with lines of types 2 and 5 and a brick of type 3, both line pairs have the hit handler and the brick bounces off both lines |
| SquareRaceGame.HitRowFixedSpec | games/square_race_game.py:73-77 | with every finish line's type skipped, the middle loop gives the hit handler to the brick's pairs with other non-line types, once there is a line |
| SquareRaceGame.HitsFixedSpec | games/square_race_game.py:72-77 | the corrected registration gives the hit handler exactly to pairs of different types whose shape type is no line's type |
| SquareRaceGame.WinPairsSurviveFixed | games/square_race_game.py:60-77 | with the corrected skip, every pair {brick type, line type} keeps the win handler, however many line types there are, as long as no brick shares one |
| SquareRaceGame.FixAgreesWithOneLineType | games/square_race_game.py:60-77 | with a single finish-line type, the corrected registrations leave the same table as the code |
| SquareRaceGame.AddVictoryLineCollisionHandler | games/square_race_game.py:52-64 | the loops register exactly the win registration over the bricks' and lines' shape types, under sorted pairs |
| SquareRaceGame.AddBrickCollisionHandler | games/square_race_game.py:66-77 | the loops register exactly the hit registration over those types and the space's shapes, under sorted pairs, so a hit registration replaces a win handler of the reversed pair |
| SquareRaceGame.FillSpace | games/square_race_game.py:39-41 | the space holds the registered bodies and shapes, in order, and the handlers of both registrations |
| SquareRaceGame.NewBase | games/square_race_game.py:32 | the base game is made under "Square Race Game" with the players' colours |
| SquareRaceGame.Game.constructor | games/square_race_game.py:14-41 | the level's elements are built from its records, the space holds exactly the registered bodies and shapes (every brick body among them), and the handler table is the one both registrations give |
| SquareRaceGame.Game.StopGame | games/square_race_game.py:49-50 | every body in the space comes to rest |
| GameGeneratorBase.SaveFileName | utils/games_generator/game_generator_base.py:46-48 | the save file is "snake_game_data_" followed by the number and ".json" |
| GameGeneratorBase.SaveFileNameInjective | utils/games_generator/game_generator_base.py:48 | different numbers give different save files |
| GameGeneratorBase.SaveFileIsGameFile | utils/games_generator/game_generator_base.py:48 | the editor's save file for snake name s is the data file the game with snake name s + "_game" reads under the same number |
| GameGeneratorBase.CountPrefixedAppend | utils/games_generator/game_generator_base.py:47 | one more file starting with the prefix counts once more |
| GameGeneratorBase.CountPrefixedSame | utils/games_generator/game_generator_base.py:47 | two prefixes the listed files start with alike count alike |
| GameGeneratorBase.SaveIsNew | utils/games_generator/game_generator_base.py:47-48 | when the game's files are numbered 0 to count - 1, a save never overwrites one of them |
| GameGeneratorBase.CountGameFiles | utils/games_generator/game_generator_base.py:47 | when every editor-prefixed file is also game-prefixed, both prefixes count alike |
| GameGeneratorBase.GameOpensNewestSave | games/game_base.py:45-47 | after a save, the game started with -1 opens exactly the file just saved |
| GameGeneratorBase.Generator.constructor | utils/games_generator/game_generator_base.py:13-24 | the defaults: a 400x600 gray screen, 60 frames per second, no gravity, step 60, and no data |
| GameGeneratorBase.Generator.AddGeneralData | utils/games_generator/game_generator_base.py:38-43 | the screen, clock and space entries are set from the fields, and every other entry is kept |
| GameGeneratorBase.Generator.Setup | utils/games_generator/game_generator_base.py:26-33 | the typed size replaces the default unless the answer is "d" in either case or the size did not parse; then the general data is added |
| GameGeneratorBase.Generator.SaveFile | utils/games_generator/game_generator_base.py:45-48 | the file written is the game's save file numbered by how many files share its snake name |
| SquareRaceGameGenerator.Pending | utils/games_generator/square_race_game_generator.py:56-57 | in each mode the stack holds the modes still to come, the next one on top |
| SquareRaceGameGenerator.PopAdvances | utils/games_generator/square_race_game_generator.py:56-102 | popping in any mode but logo gives the next mode, and leaves its stack |
| SquareRaceGameGenerator.BoardShape | utils/games_generator/square_race_game_generator.py:41-45 | the board is rectangular, and tile (i, j) is the 50x50 square at column j, row i |
| SquareRaceGameGenerator.BoardNoDup | utils/games_generator/square_race_game_generator.py:41-45 | no tile of the board appears twice |
| SquareRaceGameGenerator.RectHitsMembers | utils/games_generator/square_race_game_generator.py:118-120 | the tiles a click finds are without repeats and are exactly the board's tiles containing the point |
| SquareRaceGameGenerator.BorderClickToggles | utils/games_generator/square_race_game_generator.py:116-122 | a border-mode click flips exactly the walls under it and keeps the wall list free of repeats |
| SquareRaceGameGenerator.CellLinesMembers | utils/games_generator/square_race_game_generator.py:169-180 | a wall tile gets its right, left, bottom or top edge exactly when the neighbour on that side exists and is not a wall, and a non-wall gets nothing |
| SquareRaceGameGenerator.AddedLinesMembers | utils/games_generator/square_race_game_generator.py:166-180 | a line is appended exactly when some tile appends it |
| SquareRaceGameGenerator.Snap | utils/games_generator/square_race_game_generator.py:132-134 | the end of the finish line shares a coordinate with its start; on a tie it is horizontal |
| SquareRaceGameGenerator.SnapNearest | utils/games_generator/square_race_game_generator.py:132-134 | the snapped end is the point on the start's vertical or horizontal line nearest to the click |
| SquareRaceGameGenerator.ColorChoice | utils/games_generator/square_race_game_generator.py:184-188 | the wall colour is always a palette colour |
| SquareRaceGameGenerator.ColorChoiceByName | utils/games_generator/square_race_game_generator.py:185 | typing a colour's name in any letter case picks that colour |
| SquareRaceGameGenerator.BoundaryRecordsInside | utils/games_generator/square_race_game_generator.py:189-196 | each wall record sits at its tile's centre, has the tile's size, group 1 and the chosen colour, and gives the tile back |
| SquareRaceGameGenerator.LineRecordsRoundTrip | utils/games_generator/square_race_game_generator.py:197-203 | the lines can be read back from their records, which are all in group 1 |
| SquareRaceGameGenerator.BrickGroupsApart | utils/games_generator/square_race_game_generator.py:226-234 | all bricks start at the start point with their chosen colours, in groups distinct from each other and from the walls and the finish line |
| SquareRaceGameGenerator.AskBrickColors | utils/games_generator/square_race_game_generator.py:218-225 | the loop collects one colour per brick, in brick order |
| SquareRaceGameGenerator.BrickCount | utils/games_generator/square_race_game_generator.py:214-219 | the typed count, 2 when the answer does not parse, and otherwise as many bricks as `range(n_bricks)` has elements, so 0 for a negative count |
| SquareRaceGameGenerator.RangeFromZero | utils/games_generator/square_race_game_generator.py:219 | `range(n)` has n elements, and none when n is negative |
| SquareRaceGameGenerator.SquareRaceGenerator.constructor | utils/games_generator/square_race_game_generator.py:29-35 | the base defaults, and nothing placed yet |
| SquareRaceGameGenerator.Session.constructor | utils/games_generator/square_race_game_generator.py:40-59 | the board, no walls, the four frame lines, border mode with logo, end and start to come, and the button centred 20 units below the board |
| SquareRaceGameGenerator.Session.NextMode | utils/games_generator/square_race_game_generator.py:57-102 | popping moves to the mode of the next rank |
| SquareRaceGameGenerator.Session.AddBordersLines | utils/games_generator/square_race_game_generator.py:166-180 | the lines of every tile, row by row, are appended to the line list |
| SquareRaceGameGenerator.Session.AddRowLines | utils/games_generator/square_race_game_generator.py:168-180 | one row's tiles' lines are appended in column order |
| SquareRaceGameGenerator.Session.AddCellLines | utils/games_generator/square_race_game_generator.py:169-180 | one tile's lines are appended |
| SquareRaceGameGenerator.Session.AddWallLines | utils/games_generator/square_race_game_generator.py:170-180 | a wall's open sides' edges are appended: right, left, bottom, top |
| SquareRaceGameGenerator.Session.ToggleBorders | utils/games_generator/square_race_game_generator.py:118-122 | the walls become the old walls with the tiles under the click toggled, board order |
| SquareRaceGameGenerator.Session.ToggleRow | utils/games_generator/square_race_game_generator.py:119-122 | the same for one row |
| SquareRaceGameGenerator.Session.PressButton | utils/games_generator/square_race_game_generator.py:98-113 | in border mode: add the lines, the wall and line records, then go to start; in start mode with a start point: the brick records, then end; in end mode with both ends: the finish-line record, then logo; in logo mode: the logo record and stop; otherwise nothing changes |
| SquareRaceGameGenerator.Session.EditAt | utils/games_generator/square_race_game_generator.py:116-137 | border mode toggles the walls under the click; start mode sets the start point; end mode sets the finish line's start first, then moves the old end to the start and snaps the new end; logo mode sets the logo; nothing else changes |
| SquareRaceGameGenerator.Session.MouseDown | utils/games_generator/square_race_game_generator.py:94-137 | a click moves the mode at most one step forward and only on the button; a click below the board edits nothing; the editor only stops on the button in logo mode |
| SquareRaceGameGenerator.Session.Run | utils/games_generator/square_race_game_generator.py:61-141 | the loop handles frames while running; it stops early only when the editor has stopped, and the mode never goes back |
| SquareRaceGameGenerator.ButtonBelowBoard | utils/games_generator/square_race_game_generator.py:59-116 | a press on the button is never also a click on the board |

## Where the code and its documentation differ

The model follows the code in each of these cases:
- The race loop stops when ANY finish flag is true, since `not any(...)` is at games/game_base.py:109. So the race ends when one brick is at rest. The docstring of `_finish_game_handler` at games/game_base.py:172-175 says "all" (`GameBase.OneFlagIsEnough`, `SquareRaceGame.OneBrickAtRestEndsTheRace`).
- The finish-line handler returns `False` (games/square_race_game.py:58), so pymunk does not process that contact (`SquareRaceGame.Begin`).
- A wall edge (`BoundaryLine`) is a segment of radius 1, not of zero thickness (elements/boundary_line.py).
- The editor writes `"victory_line"` as a single record (utils/games_generator/square_race_game_generator.py:237-242). The game iterates over it as a list of records (games/square_race_game.py:33-34). The model keeps both readings, `LevelData.EditorData.victoryLine` and `LevelData.Level.victoryLines`, and does not connect them.
- The docstring of `set_waiting` (utils/games_generator/control_elements/select_point_button.py:64) says it updates the first value in the waiting list. The loop at lines 66-70 updates every visited button whose area holds the point, and skips the button after each one it removes (`SelectPointButtons.SetWaiting`, `SelectPointButtons.KeptMembers`, `SelectPointButtons.SecondOfNeighboursSkipped`).
- The level editor draws its own tile grid. It does not use `TileButton`, so utils/games_generator/control_elements/tiles.py is modelled on its own.

## Left out

- JSON loading and saving: level data are typed records (`LevelData`), and the files' contents are not modelled. Only the file names are (`GameBase.DataFileName`, `GameGeneratorBase.SaveFileName`).
- Rendering: screens, fonts, `draw`, `_draw_button`, `_draw_logo`, display flips and the frame clock.
- The physics simulation (`space.step`), pymunk's moments, and the meaning of shape-filter groups. Bodies and shapes keep the parameters they were given.
- pymunk's handler table: the model keys it by the sorted pair of collision types, as pymunk's `add_collision_handler` does. The order in which the two shapes reach `begin` is not modelled.
- Sounds: utils/sounds.py is not part of this model. The handlers' `play()` calls are left out.
- pygame initialisation and the event queue. Each frame's events are a parameter (`GameBase.Frame`, `SquareRaceGameGenerator.Event`), and the mouse position comes with the event.
- Screen recording hot keys, sleeps and `shutil.move`: the recorder returns which file would be moved (`GameRecorder.MoveFileToTargetDir`).
- Directory listings (`os.listdir`) are parameters.
- The instagrapi login and the upload itself: the uploader is a value (`ReelUploader.NewUploader`), and the model computes the caption and the file to upload.
- Console prompts (`input`) and random choices (fallback colours, velocities) are parameters (`SquareRaceGameGenerator.Answers`). The float arithmetic of `_get_random_velocity` is left out.
- The random fallback colour for a brick comes from the basic colours in the source. The model accepts any palette colour as the fallback.
- Coordinates in the editor and the control widgets are integers. Element and level coordinates are reals. Float positions in widgets are not modelled.
- String casing (`lower`, `upper`, `title`) covers ASCII letters only.
- The unused `self.boundaries` and `self.boundaries_lines` lists of the editor are kept as fields. They are never read.
- The editor's final `_save_data` call after its loop is not part of `SquareRaceGameGenerator.Session.Run`, and the data written is `GameGeneratorBase.Generator.SaveFile`'s file name plus the session's data record.
- Emoji literals: the table in utils/media_uploaders/emojis.py is stored with broken encoding. The model uses the code points each entry's comment names, and keeps the source's repeated emojis.
- Tiles.TileButton.SetValue: takes a position. With `None`, the source's `collidepoint` raises, and that error path is not modelled.
- RangeButtons.RangeButton.SetValue: takes a position. With `None`, the source's `collidepoint` raises, and that error path is not modelled.
- ControlElements.ControlElement.SetValue: requires a position for a range button, for the same reason.
- ColorButtons.ColorButton.constructor: requires a colour count from 1 to 35 where it is positive. A count of 0 fails the source's division and a count above 35 fails its assertion. Those error paths are not modelled.
- ColorButtons.ColorButton.ResetNColors: requires the same bounds, for the same reason.
- ColorButtons.ColorButton.GetValue: without a position it requires at least one swatch, because the source indexes swatch 0.
- SquareRaceGameGenerator.Session.constructor: requires the finish line drawn so far to be snapped. That always holds, because only the editor sets it.
- SquareRaceGameGenerator.Session.MouseDown: states the mode step, that clicks below the board edit nothing, and when the editor stops. `Session.PressButton` and `Session.EditAt` state the full effects of the two halves.
- SquareRaceGameGenerator.Session.Run: states only that the mode never goes back, and that the loop stops before the last frame only once the editor has stopped. Each event's effect is stated by `Session.MouseDown`.
- SquareRaceGame.Game.constructor: states that each element was built from its record (`Elements.ElementsBuilt`). The stronger per-element facts are stated by `SquareRaceGame.BuildLevel`, which the constructor calls.
- SquareRaceGameGenerator.ColorChoice: its own contract says only that the result is a palette colour. The choice by name is `SquareRaceGameGenerator.ColorChoiceByName`.
- The level editor's board is rectangular by construction. The line-adding methods require `Rectangular` and do not model the jagged lists the source would index out of range.

## Findings

| source | as written | input that shows it | evidently intended | confidence | as-written member | corrected member |
|---|---|---|---|---|---|---|
| utils/game_recorder/game_recorder.py:64 (also utils/media_uploaders/reel_uploader.py:35) | a recording is any file that starts with "name number" and ends with "mp4", and `max` picks the greatest | captures ["Square Race 1.mp4", "Square Race 10.mp4"] for game 1: `max` picks "Square Race 10.mp4", game 10's recording | game n picks only files where no further digit follows "name n", so one file never belongs to two game numbers | not executed | FileSelect.SelectAsWritten, FileSelect.PrefixCollision, GameRecorder.MoveFileToTargetDir, GameRecorder.MovesAnotherGamesFile, ReelUploader.VideoFile | FileSelect.Select, FileSelect.IsRecordingSeparatesNumbers, FileSelect.PrefixCollisionFixed, GameRecorder.MoveFileToTargetDirFixed, GameRecorder.MovedBelongsToTheGame, ReelUploader.VideoFileFixed, ReelUploader.UploadedBelongsToTheGame |
| games/square_race_game.py:75 | the hit loops skip a shape only when its type is the brick's or the current finish line's; pymunk stores one handler per unordered pair of types, so registering {brick, line} for another line's turn replaces that line's win handler | finish lines of types 2 and 5 and a brick of type 3: the hit loops register {3, 5} while at line 2 and {2, 3} while at line 5, so both lines bounce the brick and no win is ever signalled | the hit handler is never registered against any finish line's type, so every finish line keeps its win handler | not executed | SquareRaceGame.Handlers, SquareRaceGame.WinLostWithTwoLineTypes, SquareRaceGame.TwoLineTypesLoseTheWin | SquareRaceGame.HandlersFixed, SquareRaceGame.HitsFixedSpec, SquareRaceGame.WinPairsSurviveFixed, SquareRaceGame.FixAgreesWithOneLineType |

The game, recorder and uploader members follow the code as written. The corrected members stand beside them:
- With one finish line, the corrected registrations agree with the code (`SquareRaceGame.FixAgreesWithOneLineType`). The editor writes levels with one finish line.
- The corrected recording choice is stated by `GameRecorder.MoveFileToTargetDirFixed` and `ReelUploader.VideoFileFixed`.
