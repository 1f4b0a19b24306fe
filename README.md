# Multithreaded blinky on the FRDM board: a verified model of its sequential core

The sample runs a handful of Zephyr threads around an FXOS8700 accelerometer and
magnetometer, a Nokia 5110 LCD, an RGB LED and a push button. This project
models the parts whose behaviour is plain sequential computation, and proves
what they do:

- **LCD drawing primitives** (`LcdBitmap`, `LcdLine`, `LcdCircle`, `LcdNokia`).
  These work in place on the packed 84×48 framebuffer (504 bytes, one bit per
  pixel, eight vertical pixels per byte). The operations are set_pixel,
  Bresenham line, rectangle outline, filled rectangle, midpoint circle, and the
  clamp–scale–invert map from a sensor value to a screen row.
  - Each drawing method is proved to leave the framebuffer equal to the old one
    with a described sequence of points ORed in.
  - Through `LcdBitmap.Painted`, each is also proved to switch on exactly the
    on-screen pixels of a described set and no other.
- **Snake game** (`SnakeGame`). The game state lives in a class holding the
  two 112-cell coordinate arrays, the length, the heading, the food, the score
  and the game-over flag.
  - Its methods are proved against a pure state machine (`Init`, `NewHeading`,
    `Update`, `FoodChoice`). Lemmas about that machine give the game's
    invariants, the toroidal move, collision, growth and food placement.
  - The bitmap half of `render_game` is proved to produce `Frame`. `Frame` is
    proved to light the border, every snake block and the food outline, and
    nothing else.
- **Rolling plot buffers** (`SensorSampling`). The sampling thread stores each
  reading in six snapshot variables, then shifts each of six 84-entry history
  buffers left and appends the new value. A run of samples is proved to leave
  the last 84 readings of each axis in order (`RunLastReadings`), and a failed fetch stops the
  thread before anything is written.
- **LED thread** (`LedControl`). Gesture flags update the colour, brightness
  and on/off state. `set_rgb_led` range-checks its percentages and computes
  three PWM pulse widths.
- **Mode button** (`Button`). A debounced press advances the visualisation mode
  modulo nine.

Inputs from outside the core are parameters:

- successive `rand()` results: a `seq<nat>` for the snake, a triple for a shake;
- the accelerometer values read by `update_direction`;
- the outcome of each sensor fetch (`SensorSampling.Fetch`);
- the gesture event mask;
- whether `gpio_pin_get_dt` returned non-zero after the debounce delay (a negative error code counts as a press, as in the code);
- the PWM channel periods and the status code each `pwm_set_pulse_dt` returns.

C `int` arithmetic is modelled on unbounded integers. No value in the core can
come near overflow: grid cells, pixels and percentages are all small. Where
the code relies on a width, the width is written out:

- `uint8_t` parameters of `set_rgb_led`: `LedControl.ToU8`;
- the 32-bit cast of a pulse width: `LedControl.Pulse`;
- the `uint32_t` brightness addition: `LedControl.Handle`;
- C's truncating `%` in the button: `Button.CRem`;
- the truncating float-to-int conversion: `LcdNokia.Truncate`.

Sensor values are `real`.

## Model

| member | source | states |
|---|---|---|
| LcdBitmap.ByteIndex | samples/basic/mutithread_blinky/src/LCD5110/LCD_nokia.c:345-346 | the byte of an on-screen pixel is below 504, and byte index modulo 84 and divided by 84 give back the column and the 8-row band |
| LcdBitmap.WithPixelBytes | samples/basic/mutithread_blinky/src/LCD5110/LCD_nokia.c:341-348 | an off-screen pixel leaves the framebuffer unchanged; an on-screen pixel sets bit y%8 of byte x+(y/8)*84 and leaves every other byte, and every other bit of that byte, unchanged |
| LcdBitmap.WithPixelPaints | samples/basic/mutithread_blinky/src/LCD5110/LCD_nokia.c:339-349 | after set_pixel the lit on-screen pixels are those lit before plus (x, y), and no other |
| LcdBitmap.BitmapDeterminedByPixels | samples/basic/mutithread_blinky/src/LCD5110/LCD_nokia.h:10-11 | two 504-byte framebuffers with the same lit pixels are equal byte for byte, so the pixel-set view loses nothing |
| LcdBitmap.PixelAt | samples/basic/mutithread_blinky/src/LCD5110/LCD_nokia.c:345-346 | every bit of every byte is the bit of an on-screen pixel at that address; `AddressInjective` shows that pixel is the only one |
| LcdBitmap.Blank | samples/basic/mutithread_blinky/src/snake_game.c:233 | the cleared framebuffer has no pixel lit |
| LcdBitmap.PlotPaints | samples/basic/mutithread_blinky/src/LCD5110/LCD_nokia.c:339-349 | plotting a sequence of points lights exactly its on-screen points, added to what was lit |
| LcdBitmap.PlotAppend | samples/basic/mutithread_blinky/src/LCD5110/LCD_nokia.c:251-257 | plotting s then t equals plotting s + t, so successive draw calls compose |
| LcdBitmap.PaintedThen | samples/basic/mutithread_blinky/src/LCD5110/LCD_nokia.c:251-257 | painting one set and then another paints their union |
| LcdBitmap.PaintedNothing | samples/basic/mutithread_blinky/src/LCD5110/LCD_nokia.c:259-266 | painting no on-screen pixel leaves the framebuffer byte for byte unchanged |
| LcdNokia.SetPixel | samples/basic/mutithread_blinky/src/LCD5110/LCD_nokia.c:339-349 | the array afterwards is the old one with the pixel ORed in (see WithPixelBytes and WithPixelPaints for what that means) |
| LcdLine.Abs | samples/basic/mutithread_blinky/src/LCD5110/LCD_nokia.c:231-232 | abs gives n or -n, whichever is non-negative |
| LcdLine.LineStartInv | samples/basic/mutithread_blinky/src/LCD5110/LCD_nokia.c:231-233 | the initial dx, dy, sx, sy and err = dx + dy satisfy the Bresenham invariant, and the remaining distance is \|x1-x0\| + \|y1-y0\| |
| LcdLine.LineStepInv | samples/basic/mutithread_blinky/src/LCD5110/LCD_nokia.c:239-247 | one pass of the loop keeps the error-term invariant and strictly shrinks the remaining distance, so the loop terminates |
| LcdLine.NoOvershoot | samples/basic/mutithread_blinky/src/LCD5110/LCD_nokia.c:240-247 | under the invariant, x is not stepped once it has reached x1 and y is not stepped once it has reached y1, and at least one of them is stepped |
| LcdLine.LineTraceReaches | samples/basic/mutithread_blinky/src/LCD5110/LCD_nokia.c:235-238 | the traced points end at (x1, y1) and reach it only at the end, which is when the loop breaks |
| LcdLine.LinePoints | samples/basic/mutithread_blinky/src/LCD5110/LCD_nokia.c:229-249 | the plotted sequence starts at (x0, y0), ends at (x1, y1) and passes through (x1, y1) only at the end |
| LcdLine.LineSteps | samples/basic/mutithread_blinky/src/LCD5110/LCD_nokia.c:239-247 | consecutive plotted points differ by at most one in each coordinate, always toward the target, and every point lies in the box spanned by the two ends |
| LcdLine.HorizontalLine | samples/basic/mutithread_blinky/src/LCD5110/LCD_nokia.c:229-249 | a line with y0 == y1 plots exactly the points of that row between x0 and x1 inclusive |
| LcdLine.VerticalLine | samples/basic/mutithread_blinky/src/LCD5110/LCD_nokia.c:229-249 | a line with x0 == x1 plots exactly the points of that column between y0 and y1 inclusive |
| LcdLine.LineDirectionMatters | samples/basic/mutithread_blinky/src/LCD5110/LCD_nokia.c:239-247 | drawing from (x, y) to (x+1, y+2) plots (x+1, y+1), while drawing the reverse does not: the pixel set depends on direction |
| LcdLine.ForwardExample | samples/basic/mutithread_blinky/src/LCD5110/LCD_nokia.c:229-249 | the exact points of the line from (x, y) to (x+1, y+2) |
| LcdLine.BackwardExample | samples/basic/mutithread_blinky/src/LCD5110/LCD_nokia.c:229-249 | the exact points of the line from (x+1, y+2) to (x, y) |
| LcdNokia.DrawLine | samples/basic/mutithread_blinky/src/LCD5110/LCD_nokia.c:229-249 | the loop plots exactly LinePoints, in order, and lights exactly its on-screen points |
| LcdNokia.LineNextPixel | samples/basic/mutithread_blinky/src/LCD5110/LCD_nokia.c:236-247 | one pass plots the current point and continues the trace from the stepped state |
| LcdNokia.RectangleOutline | samples/basic/mutithread_blinky/src/LCD5110/LCD_nokia.c:251-257 | the four lines plot exactly the outline: the rows y and y+height between x and x+width inclusive, and the columns x and x+width between y and y+height inclusive, corners included |
| LcdNokia.DrawRectangle | samples/basic/mutithread_blinky/src/LCD5110/LCD_nokia.c:251-257 | the four line calls plot RectanglePoints and light exactly the on-screen points of the outline |
| LcdNokia.RectanglePlot | samples/basic/mutithread_blinky/src/LCD5110/LCD_nokia.c:253-256 | the four successive line plots compose into the outline plot |
| LcdNokia.ColumnMembers | samples/basic/mutithread_blinky/src/LCD5110/LCD_nokia.c:262-264 | the inner loop plots exactly column i from y to y+height-1 |
| LcdNokia.FilledMembers | samples/basic/mutithread_blinky/src/LCD5110/LCD_nokia.c:261-265 | the double loop plots exactly the half-open box [x, x+width) × [y, y+height) |
| LcdNokia.DrawFilledRectangle | samples/basic/mutithread_blinky/src/LCD5110/LCD_nokia.c:259-266 | the double loop lights exactly the on-screen pixels of [x, x+width) × [y, y+height), and changes nothing when width or height is not positive |
| LcdNokia.FilledPainted | samples/basic/mutithread_blinky/src/LCD5110/LCD_nokia.c:259-266 | after the outer loop, the framebuffer has the filled box painted, and is unchanged for an empty box |
| LcdCircle.MidpointTrace | samples/basic/mutithread_blinky/src/LCD5110/LCD_nokia.c:281-299 | the loop makes at least (y - x) / 2 and at most y - x passes from a state with x < y, and none from one with x >= y |
| LcdCircle.MidpointTraceSteps | samples/basic/mutithread_blinky/src/LCD5110/LCD_nokia.c:281-289 | each pass moves x up by one and y down by at most one, and every plotted offset satisfies 0 < x <= y + 1 |
| LcdCircle.Octants | samples/basic/mutithread_blinky/src/LCD5110/LCD_nokia.c:291-298 | each pass plots eight reflections of its offset |
| LcdCircle.CircleSymmetric | samples/basic/mutithread_blinky/src/LCD5110/LCD_nokia.c:276-299 | the plotted circle is closed under reflection in the vertical, horizontal and diagonal lines through the centre (the eight-way symmetry) |
| LcdCircle.OctantPlotSymmetric | samples/basic/mutithread_blinky/src/LCD5110/LCD_nokia.c:291-298 | the points of all passes are closed under the three reflections |
| LcdNokia.DrawCircle | samples/basic/mutithread_blinky/src/LCD5110/LCD_nokia.c:268-300 | plots the four axis points at distance radius, then the eight reflections of each pass's offset, and lights exactly those on-screen points |
| LcdNokia.CircleAxisPlot | samples/basic/mutithread_blinky/src/LCD5110/LCD_nokia.c:276-279 | the four set_pixel calls before the loop are the first four points of CirclePoints |
| LcdNokia.CirclePassPlot | samples/basic/mutithread_blinky/src/LCD5110/LCD_nokia.c:282-298 | one pass updates f, ddF_x, ddF_y, x and y and plots the eight reflected points of the new offset |
| LcdNokia.Truncate | samples/basic/mutithread_blinky/src/LCD5110/LCD_nokia.c:334 | the float-to-int conversion truncates toward zero |
| LcdNokia.Clamp | samples/basic/mutithread_blinky/src/LCD5110/LCD_nokia.c:330-331 | the value is clamped into [min, max]; when min > max the second test wins and the result is max |
| LcdNokia.Scale | samples/basic/mutithread_blinky/src/LCD5110/LCD_nokia.c:334 | the quotient times (max - min) equals (value - min) * 47 |
| LcdNokia.MapValueToPixel | samples/basic/mutithread_blinky/src/LCD5110/LCD_nokia.c:325-337 | min == max returns SCREENH / 2 = 24 |
| LcdNokia.MapValueRange | samples/basic/mutithread_blinky/src/LCD5110/LCD_nokia.c:325-337 | for min < max the row is in [0, 47], value <= min gives 47, value >= max gives 0; for min > max every value gives 0 |
| LcdNokia.MapValueScaled | samples/basic/mutithread_blinky/src/LCD5110/LCD_nokia.c:334-336 | for min < max, 47 minus the row is the floor of (clamped value - min) * 47 / (max - min) |
| LcdNokia.MapValueMonotone | samples/basic/mutithread_blinky/src/LCD5110/LCD_nokia.c:325-337 | the row is non-increasing in the value |
| LcdNokia.ScaleRange | samples/basic/mutithread_blinky/src/LCD5110/LCD_nokia.c:334 | a numerator in [0, max - min] scales into [0, 47], with 0 mapping to 0 and max - min to 47 |
| LcdNokia.TruncateMonotone | samples/basic/mutithread_blinky/src/LCD5110/LCD_nokia.c:334 | truncation is monotone on non-negative values |
| SnakeGame.NewHeadingRules | samples/basic/mutithread_blinky/src/snake_game.c:155-167 | the heading never turns to its opposite; an allowed x tilt beyond ±0.5 (one that does not reverse the snake) wins over a y tilt; no tilt beyond ±0.5 keeps the heading; a change always has its triggering tilt |
| SnakeGame.AdvanceOnTorus | samples/basic/mutithread_blinky/src/snake_game.c:180-207 | the head moves one cell in the heading, wrapping modulo 16 and 7, and stays in the grid |
| SnakeGame.CollidesMeaning | samples/basic/mutithread_blinky/src/snake_game.c:174-215 | the move keeps the length, puts the new head first and shifts every segment back one place; the collision test holds exactly when the new head equals another segment |
| SnakeGame.FullBoardNoFood | samples/basic/mutithread_blinky/src/snake_game.c:129-144 | when the snake covers every grid cell, place_food finds no cell whatever rand() returns, so its loop never ends |
| SnakeGame.PickFromFirstFree | samples/basic/mutithread_blinky/src/snake_game.c:131-143 | rejection sampling from any even offset: a pick uses an even number of draws, lands in the grid and off the snake, and every earlier attempt hit the snake; no pick means every remaining attempt hits the snake |
| SnakeGame.FoodChoiceFirstFree | samples/basic/mutithread_blinky/src/snake_game.c:129-144 | place_food takes the first pair of draws (x % 16, y % 7) that is off the snake; the chosen food is in the grid and on no segment |
| SnakeGame.InitValid | samples/basic/mutithread_blinky/src/snake_game.c:108-126 | init_game gives body (8,3),(7,3),(6,3), heading Right, score 0, no game over, and a state satisfying the game invariant |
| SnakeGame.UpdateKeepsInv | samples/basic/mutithread_blinky/src/snake_game.c:171-227 | every step keeps the invariant: all cells in the grid, length in [1, 112], food in the grid |
| SnakeGame.UpdateMoves | samples/basic/mutithread_blinky/src/snake_game.c:174-207 | the head moves one wrapped cell in the heading, every segment i >= 1 takes the old place of segment i-1, and the length grows only on eating below the cap |
| SnakeGame.UpdateOutcomes | samples/basic/mutithread_blinky/src/snake_game.c:209-226 | a collision sets game over and keeps score, food and length; eating adds one to the score, grows the snake by one up to 112 by repeating the tail, and places new food off the snake; otherwise score, food and flag stay |
| SnakeGame.UpdateByCases | samples/basic/mutithread_blinky/src/snake_game.c:209-226 | the three outcomes of the method (collision, eat, plain move) together are exactly one Update step |
| SnakeGame.SleepTimeBounds | samples/basic/mutithread_blinky/src/snake_game.c:67-70 | the delay is at least 100, at most 300 for a non-negative score, never increases as the score grows, and is 100 exactly from score 14 on |
| SnakeGame.SnakeMembers | samples/basic/mutithread_blinky/src/snake_game.c:240-244 | the snake loop plots exactly the 5×5 blocks of the body's cells |
| SnakeGame.BlockMembers | samples/basic/mutithread_blinky/src/snake_game.c:241-243 | one filled rectangle at (x*5, y*5+10) covers exactly the block of that cell |
| SnakeGame.RenderPainted | samples/basic/mutithread_blinky/src/snake_game.c:232-249 | the rendered frame lights exactly the play-area border, the snake blocks and the food outline on a blank screen |
| SnakeGame.FrameLeavesScoreRows | samples/basic/mutithread_blinky/src/snake_game.c:230-249 | in a valid game the frame leaves the two score rows above the play area blank |
| SnakeGame.RenderOnScreen | samples/basic/mutithread_blinky/src/snake_game.c:236-249 | in a valid state every snake block pixel is lit and lies in [0, 80) × [10, 45), the food outline is lit, and the two score rows above the play area stay blank |
| SnakeGame.Game.constructor | samples/basic/mutithread_blinky/src/snake_game.c:30-48 | the statics start zeroed, with two fresh 112-entry arrays |
| SnakeGame.Game.InitGame | samples/basic/mutithread_blinky/src/snake_game.c:108-126 | the fields afterwards are Init(draws), and the draws place_food consumed are returned |
| SnakeGame.Game.PlaceFood | samples/basic/mutithread_blinky/src/snake_game.c:129-144 | the retry loop and its inner scan leave the first free drawn cell as the food and change nothing else |
| SnakeGame.Game.UpdateDirection | samples/basic/mutithread_blinky/src/snake_game.c:147-168 | the heading becomes NewHeading of the old one and the two tilt values; nothing else changes, so a valid game stays valid |
| SnakeGame.Game.UpdateGame | samples/basic/mutithread_blinky/src/snake_game.c:171-227 | the fields afterwards are exactly one Update step of the old state, the length stays in [1, 112], and a valid game stays valid |
| SnakeGame.Game.MoveAndCheck | samples/basic/mutithread_blinky/src/snake_game.c:173-215 | the arrays hold the moved body with the new head first, and the result is true exactly when the new head hits another segment |
| SnakeGame.Game.EatFood | samples/basic/mutithread_blinky/src/snake_game.c:218-226 | grows the body (up to the cap), adds one to the score and places the food by FoodChoice |
| SnakeGame.Game.MoveSnake | samples/basic/mutithread_blinky/src/snake_game.c:173-207 | the body afterwards is the old one moved one step in the heading |
| SnakeGame.Game.ShiftBody | samples/basic/mutithread_blinky/src/snake_game.c:174-177 | the descending loop copies each segment i-1 into segment i, for i from length-1 down to 1, and leaves the head and the unused entries alone |
| SnakeGame.Game.MoveHead | samples/basic/mutithread_blinky/src/snake_game.c:180-207 | the head becomes Advance of its old value in the heading; no other entry changes |
| SnakeGame.Game.HitsBody | samples/basic/mutithread_blinky/src/snake_game.c:210-215 | the scan returns true exactly when the head equals some later segment |
| SnakeGame.Game.GrowTail | samples/basic/mutithread_blinky/src/snake_game.c:219-223 | the length grows by one and the new last segment repeats the previous last segment |
| SnakeGame.Game.Render | samples/basic/mutithread_blinky/src/snake_game.c:230-249 | on a valid game (as init_game leaves it and every step keeps it) the bitmap becomes Frame of the game state, with the score rows above the play area blank |
| SnakeGame.Game.DrawFrame | samples/basic/mutithread_blinky/src/snake_game.c:232-249 | the memset, border, snake loop and food outline leave the bitmap equal to Frame of the game state, whatever the state |
| SensorSampling.PushedShifts | samples/basic/mutithread_blinky/src/sensor_sampling.c:60-73 | after one push the buffer keeps its length, new[i] = old[i+1] for i < 83, and the last entry is the new value |
| SensorSampling.PushAllWindow | samples/basic/mutithread_blinky/src/sensor_sampling.c:60-73 | pushing values one at a time leaves the window of the old contents followed by the values, shifted by their number |
| SensorSampling.LastReadings | samples/basic/mutithread_blinky/src/sensor_sampling.c:60-73 | after N pushes into an 84-entry buffer, the last min(N, 84) entries are the last min(N, 84) values in push order, and the rest are the old entries that survive |
| SensorSampling.RunLastReadings | samples/basic/mutithread_blinky/src/sensor_sampling.c:60-73 | after a run of at least 84 readings each axis buffer is that axis of the newest 84 readings in order; after fewer, the surviving old entries followed by all of them |
| SensorSampling.ReadingsOfRun | samples/basic/mutithread_blinky/src/sensor_sampling.c:34-38 | when every fetch succeeds, the readings are the fetched ones in order; a failed last fetch adds no reading |
| SensorSampling.Values | samples/basic/mutithread_blinky/src/sensor_sampling.c:68-73 | the values pushed into one axis's buffer are that axis's component of each reading |
| SensorSampling.PushReadingsSeparate | samples/basic/mutithread_blinky/src/sensor_sampling.c:60-73 | each axis's buffer receives only that axis's values, and the other axes' values never reach it |
| SensorSampling.PushReading | samples/basic/mutithread_blinky/src/sensor_sampling.c:60-73 | a sample keeps all six buffers at 84 entries |
| SensorSampling.Sampler.constructor | samples/basic/mutithread_blinky/src/shared_data.c:17-27 | the six snapshots and all six buffers start at zero |
| SensorSampling.Sampler.Sample | samples/basic/mutithread_blinky/src/sensor_sampling.c:34-75 | a failed fetch returns before any snapshot or buffer is written; otherwise the snapshots become the reading and each buffer is shifted with the reading's axis value appended, so its last entry equals the snapshot |
| SensorSampling.Sampler.Run | samples/basic/mutithread_blinky/src/sensor_sampling.c:34-85 | the loop takes fetches until the first failure; the buffers then hold the successful readings pushed in order, and the snapshots hold the last successful reading |
| SensorSampling.Shift | samples/basic/mutithread_blinky/src/sensor_sampling.c:60-65 | the memmove moves entries 1..83 to 0..82 and leaves the old last entry in place |
| SensorSampling.ShiftThenStore | samples/basic/mutithread_blinky/src/sensor_sampling.c:60-73 | memmove followed by the store at index 83 is one push |
| SensorSampling.RunStep | samples/basic/mutithread_blinky/src/sensor_sampling.c:34-75 | one more successful fetch pushes exactly its reading onto the buffers |
| LedControl.ToU8 | samples/basic/mutithread_blinky/src/led_control.c:69 | the conversion to uint8_t keeps values below 256 and always yields a byte |
| LedControl.SetRgbLedSpec | samples/basic/mutithread_blinky/src/led_control.c:90-132 | a percentage above 100 gives -EINVAL with no write, whatever the driver returns; otherwise the writes go red, green, blue, each floor(period·pct·brightness/10000) <= period for a 32-bit period, the first failing write ends the call with its own code and nothing after it is written, 0 is returned exactly when all three writes succeed, and -EINVAL is returned in range only when a write itself returned it |
| LedControl.PulseBound | samples/basic/mutithread_blinky/src/led_control.c:101-113 | with both percentages at most 100, the 64-bit quotient is at most the period, so the cast to 32 bits loses nothing |
| LedControl.HandleKeepsInv | samples/basic/mutithread_blinky/src/led_control.c:42-72 | from any state satisfying the invariant (as the initial white at 50 % does), colours stay within 100 and brightness stays a multiple of 10 in [0, 90], so set_rgb_led is never called out of range |
| LedControl.HandleFlags | samples/basic/mutithread_blinky/src/led_control.c:50-65 | shake sets each colour to rand() % 100 in [0, 99], tilt sets brightness to (brightness + 10) % 100, flip toggles the LED; clear flags change nothing, and all set flags act in the same wake-up |
| LedControl.TwoFlips | samples/basic/mutithread_blinky/src/led_control.c:62-65 | two flips restore the on/off state |
| LedControl.OffWritesZero | samples/basic/mutithread_blinky/src/led_control.c:68-72 | with the LED off the call gets four zeros, passes the range check, and every pulse written is 0 |
| LedControl.TiltCycle | samples/basic/mutithread_blinky/src/led_control.c:57-60 | k tilts from a valid brightness b give (b + 10k) % 100, so ten tilts return to b |
| LedControl.LedThread.constructor | samples/basic/mutithread_blinky/src/led_control.c:42-45 | red, green and blue start at 100, brightness at 50, and the LED on, a state satisfying the invariant |
| LedControl.LedThread.Wake | samples/basic/mutithread_blinky/src/led_control.c:47-72 | the variables afterwards are Handle of the old ones, the call made is set_rgb_led on the colour or on four zeros, and the invariant is kept |
| Button.CRem | samples/basic/mutithread_blinky/src/button.c:42 | C's % agrees with the mathematical remainder on non-negative operands, and lies in (-b, 0] otherwise |
| Button.NextModeCycle | samples/basic/mutithread_blinky/src/button.c:41-43 | from a valid mode a press stays in [0, 9): modes 0 to 7 advance by one, and the snake game (8) goes back to the splash screen (0) |
| Button.PressesCycle | samples/basic/mutithread_blinky/src/button.c:41-43 | k presses from a valid mode give (mode + k) % 9 |
| Button.PressesPeriodic | samples/basic/mutithread_blinky/src/button.c:41-43 | nine more presses always return to the same mode |
| Button.ModeSwitch.constructor | samples/basic/mutithread_blinky/src/shared_data.c:47 | the mode starts at the splash screen |
| Button.ModeSwitch.Debounced | samples/basic/mutithread_blinky/src/button.c:34-47 | a press sets mode to (mode + 1) % 9 and keeps it in [0, 9); when the pin is not pressed the mode is unchanged |

## Left out

- Display transport is not modelled. This covers LCD init, byte writes, characters, strings, clear, goto and the bitmap flush (`LCD_nokia.c` 126-227, 302-323). It is SPI/GPIO I/O, so after `SnakeGame.Game.Render` the flush is a sink. The score text drawn by `render_game` is also left out.
- The ASCII font table is left out: it is constant data.
- Threads, mutexes, the semaphore, the event object, the message queue and sleeps are left out. They are concurrency primitives whose semantics live in the kernel. Each modelled operation is one critical section run to completion. The loop around `snake_game` and its mode polling are timing. The message-queue put in the sampling thread is also left out.
- Floating point is modelled as real arithmetic:
  - sensor readings and snapshots are `real`;
  - `sensor_value_to_double`, the temperature channel, `utils.c` and `gesture_detection.c` are not part of this model;
  - `LcdNokia.MapValueToPixel` computes `(value - min) * 47 / (max - min)` exactly before truncating, where the code rounds in `float`.
- `lcd_display.c` is not part of this model. It is an I/O dispatch loop.
- Device-ready checks and the PWM driver are left out. The PWM driver is reduced to channel periods and per-write status codes.
- `rand()` is replaced by the sequence (or triple) of values it returns.
- SnakeGame.Game.PlaceFood: requires that the drawn values contain a free cell. The code keeps drawing forever when there is none. With 112 cells and a length capped at 112, eating at full length makes that possible, and `SnakeGame.FullBoardNoFood` shows that a snake covering the grid leaves no pick for any draws. The model covers only runs that terminate.
- SnakeGame.Game.UpdateGame: requires the same of the draws, when the step eats.
- LcdNokia.DrawLine: the code's lines depend on their direction. A line from (x, y) to (x+1, y+2) and its reverse light different middle pixels (`LcdLine.LineDirectionMatters`). The model follows the code and does not claim direction independence.
- LcdNokia.MapValueToPixel: its own contract states only the min == max case. The range, endpoints, floor formula and monotonicity are stated by `MapValueRange`, `MapValueScaled` and `MapValueMonotone`.
- SensorSampling.Sampler.Run: models a finite prefix of the infinite sampling loop. It ends at the first failed fetch or when the given fetches run out.
