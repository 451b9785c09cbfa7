# map2kcal in Dafny

map2kcal estimates how many kilocalories a route costs to cycle, run or walk. A route is a GPX track.
The route is turned into sections between consecutive coordinates. Each section gets a slope and
an elevation from elevation samples, road and surface information from OpenStreetMap, and wind
components from the weather. A physics model of the exercise then gives each section its drag,
rolling and slope energy, plus the energy spent accelerating at the start. A negative-energy
carry lets downhill sections pay back later climbs.

Two generations of the engine exist and both are modelled:

- `map2kcal-1.0.0.js` is the current one. It has `RouteLoader`, `Route`, `Exercise` with its
  subclasses, the OSM matcher and `xmlToJson`.
- `route.js` with `roadInfo.js` is the legacy one. It has `Route` with flat energy fields,
  `Exerciser`, and a matcher that only reads `highway`.

The chart helpers of `map2kcal.charts-1.0.0.js` are modelled as well. These are the sort, the
cumulative kcal rows, the elevation axis and the energy percentages.

Modules:

- `Js`: JavaScript values the core relies on. These are undefined/null/string tags, `Math.round`,
  `Math.min`/`max`/`abs` and `Array.prototype.reverse`.
- `Units`: the unit conversions.
- `Geo`: coordinates, sections, the bounding box, section inversion, the elevation index and the
  elevation pass.
- `Surfaces`: the surface `switch` tables. A JavaScript `switch` with fall-through and a `default`
  in the middle is modelled as the first arm carrying a matching label. The module also holds the
  surface fallback from `highway`/`tracktype`.
- `Exercise`: both exercise hierarchies, their powers and energies.
- `Energy`: the energy pass as a function (`Run`, `LegacyRun`) with its invariants.
- `OsmMatch`: node matching and tag parsing. The current and legacy matchers are the two values of
  `Variant`.
- `Metrics`: the highway/surface histograms, total distance and total slope.
- `Routes`: the current `Route` class.
- `LegacyRoutes`: the legacy `Route` class, named `LegacyRoute`.
- `Loader`: `RouteLoader`'s module-completion table.
- `Charts`: the chart computations.
- `XmlJson`: `xmlToJson`.

JavaScript numbers are modelled as mathematical reals. NaN appears only where the source computes
0/0, through `Js.Number`.

Some operations are passed in as parameters because they are floating-point geodesy or
trigonometry, or because they stand for an external service:

- Vincenty's distance and the heading angle (`Geo.Geodesy`);
- `Math.sqrt(a² + b²)` (`hypot`);
- the weather's wind decomposition and the power formulas' gravity, cos/sin of the incline and the
  walking pendulum term (`Exercise.Physics`, `Energy.Conditions`).

## Model

| member | source | states |
|---|---|---|
| Js.Round | map2kcal-1.0.0.js:404 | `Math.round` gives the integer within half a unit of x, rounding halves up |
| Js.RoundOfInteger | map2kcal-1.0.0.js:404 | rounding an integer gives the integer back |
| Js.RoundMonotone | map2kcal-1.0.0.js:404 | rounding is monotone, so sample indices never go backwards |
| Js.Reverse | map2kcal-1.0.0.js:602-604 | reference definition of `reverse()` on the array's contents: position i holds element n−1−i; it carries no contract, and `Js.ReverseReverse` proves it an involution |
| Js.ReverseReverse | map2kcal-1.0.0.js:602-604 | reversing twice gives back the original array |
| Units.DegToRad | map2kcal-1.0.0.js:1161-1163 | degrees to radians, undone exactly by radToDeg |
| Units.RadToDeg | map2kcal-1.0.0.js:1157-1159 | reference definition of radians·180/π; no contract of its own, `Units.DegToRad` proves it undoes the degree conversion |
| Units.KphToMps | map2kcal-1.0.0.js:1173-1175 | km/h to m/s: the result times 3.6 is the input |
| Units.MpsToKph | map2kcal-1.0.0.js:1177-1179 | m/s to km/h multiplies by 3.6 |
| Units.SpeedRoundTrip | map2kcal-1.0.0.js:1173-1179 | the two speed conversions are mutually inverse |
| Units.KtphToKph | map2kcal-1.0.0.js:1169-1171 | one knot is 1.852 km/h: the result divided by 1.852 gives the knots back, so a non-negative speed is never smaller in km/h |
| Units.KtphToMps | map2kcal-1.0.0.js:1165-1167 | knots to m/s by way of km/h equals 1.852·k·1000/3600 |
| Units.JouleToKcal | map2kcal-1.0.0.js:1181-1183 | kcal times 4184 is the joules |
| Units.KelvinToCelsius | map2kcal-1.0.0.js:1185-1187 | Celsius plus 273.15 is the Kelvin temperature |
| Geo.NewCoordinate | map2kcal-1.0.0.js:611-616 | reference definition of `new Coordinate(lat, lng)`: the position with highway, surface and tracktype undefined; no contract of its own, `Routes.Route.AddCoordinate` is proved to append it |
| Geo.NewSection | map2kcal-1.0.0.js:736-746 | reference definition of `new Section(p0, p1)`: the distance and angle between the two points, the latitude of their midpoint, no road data and zero slope, elevation and winds, and E set to 0 where the source leaves it undefined (see "## Left out"); no contract of its own, `Geo.BuildSections` is proved to build one per pair of consecutive coordinates |
| Geo.BuildSections | map2kcal-1.0.0.js:347-353 | createSections makes one section per consecutive pair of coordinates (none when fewer than two), section i joining coordinates i and i+1 |
| Geo.Bounds | map2kcal-1.0.0.js:332-345 | the bounding box of a non-empty track has min ≤ max, encloses every coordinate, and each bound is attained by some coordinate |
| Geo.InvertedSections | map2kcal-1.0.0.js:601-606 | reference definition of the sections after `reverse()` and the per-section `invert()`: position i holds the inverse of section n−1−i; it carries no contract, and `Geo.InvertedSectionsTwice` and `Routes.InvertedTotals` state what it promises |
| Geo.Inverted | map2kcal-1.0.0.js:845-850 | reference definition of `Section.invert`: slope, headwind and crosswind negated, angle turned by π; no contract of its own, its double application is the subject of `Geo.InvertedSectionsTwice` |
| Geo.InvertedSectionsTwice | map2kcal-1.0.0.js:845-850 | inverting twice restores every section field except the angle, which ends 2π further on |
| Geo.ElevationIndex | map2kcal-1.0.0.js:402-405 | the sample index of a section boundary lies within the samples; the first boundary maps to the first sample and the last to the last |
| Geo.ElevationIndexMonotone | map2kcal-1.0.0.js:402-405 | later section boundaries never map to earlier samples |
| Geo.Elevated | map2kcal-1.0.0.js:389-398 | reference definition of one iteration of the elevation loop: the slope is the later sample minus the earlier, the elevation their mean, and the distance is corrected by the hypotenuse of slope and distance; no contract of its own, `Geo.PrefixSlope` and `Geo.SlopesTelescope` state what the slopes it sets add up to |
| Geo.WithElevations | map2kcal-1.0.0.js:388-399 | reference definition of the elevation loop over all sections; no contract of its own, `Routes.Route.ProcessElevations` is proved to store it and `Geo.SlopesTelescope` proves its slopes sum to last sample minus first |
| Geo.PrefixSlope | map2kcal-1.0.0.js:389-395 | after processElevations the slopes of the first k sections add up to the sample at k's index minus the first sample |
| Geo.FirstToLastSlope | map2kcal-1.0.0.js:528-530 | reference definition of the first getSlope, which the later one shadows: last sample minus first; no contract of its own, `Geo.SlopesTelescope` proves the shadowing getSlope gives the same value |
| Geo.SlopesTelescope | map2kcal-1.0.0.js:572-578 | the summed slope (the getSlope that wins) equals last minus first sample (the getSlope it shadows at 528-530) |
| Geo.ProfileAsWritten | map2kcal-1.0.0.js:381-387 | reference definition of the zero-sample fallback as written, the as-written half of the Findings row; no contract of its own, `Geo.ProfileAsWrittenThrows` proves it throws for every route with a coordinate |
| Geo.ProfileAsWrittenThrows | map2kcal-1.0.0.js:381-387 | with at least one coordinate and null or empty samples, the fallback throws instead of producing a profile |
| Geo.ProfileOrZeros | map2kcal-1.0.0.js:381-387 | reference definition of the intended fallback: real samples are kept, otherwise one zero sample per coordinate; no contract of its own, `Geo.ZeroProfileIsFlat` states what it gives the sections |
| Geo.ZeroProfileIsFlat | map2kcal-1.0.0.js:381-395 | with the intended fallback a route without samples gets slope 0 and elevation 0 on every section |
| Surfaces.Switch | map2kcal-1.0.0.js:994-1039 | reference definition of a JavaScript `switch`: the first arm with a matching case label, else the default arm; no contract of its own, `Surfaces.SwitchFirstMatch`, `Surfaces.SwitchNoMatch` and `Surfaces.SwitchResultIsAnArm` state its behaviour |
| Surfaces.SwitchFirstMatch | map2kcal-1.0.0.js:994-1039 | a `switch` returns the result of the first arm whose labels contain the value, wherever `default` stands |
| Surfaces.SwitchNoMatch | map2kcal-1.0.0.js:1012-1013 | with no matching case, a `switch` returns the result of the arm holding `default` |
| Surfaces.SwitchResultIsAnArm | map2kcal-1.0.0.js:994-1039 | whatever a `switch` returns is the result of one of its arms |
| Surfaces.ArmWithIsAnArm | map2kcal-1.0.0.js:994-1039 | the first arm carrying a label is one of the arms |
| Surfaces.SkipArms | map2kcal-1.0.0.js:994-1039 | arms without the label can be skipped when looking for it |
| Surfaces.CrrHasDefault | map2kcal-1.0.0.js:1010-1013 | the Crr switch's default arm returns 0.0045 |
| Surfaces.MuHasDefault | map2kcal-1.0.0.js:1120-1123 | the mu switch's default arm returns 0.85 |
| Surfaces.SectionCrr | map2kcal-1.0.0.js:993-1040 | sectionCrr is defined for every surface value and lies between 0.001 and 0.015 |
| Surfaces.Crr | map2kcal-1.0.0.js:989-992 | the speed correction never lowers the coefficient at non-negative speed and is neutral at rest |
| Surfaces.CrrMudMost | map2kcal-1.0.0.js:1037-1038 | mud has the highest corrected Crr of all surfaces at any non-negative speed |
| Surfaces.Mu | map2kcal-1.0.0.js:1103-1150 | mu is defined for every surface value and lies between 0.5 and 1 |
| Surfaces.MuMudLeast | map2kcal-1.0.0.js:1147-1148 | mud has the lowest (still positive) mu of all surfaces |
| Surfaces.SharedLayout | map2kcal-1.0.0.js:1103-1150 | the Crr and mu switches list the same labels in the same arms |
| Surfaces.ListedSurface | map2kcal-1.0.0.js:994-1039 | a surface listed first in arm i gets arm i's Crr and mu |
| Surfaces.UnlistedSurface | map2kcal-1.0.0.js:1012-1013 | a surface in no arm gets the default Crr 0.0045 and mu 0.85 |
| Surfaces.NullIsNotUndefined | map2kcal-1.0.0.js:1028-1033 | strict matching means null hits `case null` (0.009, 0.7) while undefined falls to the default (0.0045, 0.85) |
| Surfaces.MudAfterDefault | map2kcal-1.0.0.js:1037-1038 | mud, listed after the default, is still reachable, and its values are the extremes of both tables |
| Surfaces.AssociateSurfaceToHighway | map2kcal-1.0.0.js:710-732 | only the surface changes; afterwards it is never nullish; a present surface is kept and a missing one gets the fallback |
| Surfaces.FallbackSurface | map2kcal-1.0.0.js:711-730 | reference definition of the surface derived from highway and tracktype; no contract of its own, `Surfaces.AssociateSurfaceToHighway`, `Surfaces.FallbackForHighways` and `Surfaces.TrackGradesSoften` state its behaviour |
| Surfaces.FallbackForHighways | map2kcal-1.0.0.js:711-730 | no highway or a path gives "other", and any highway other than path or track gives "asphalt" |
| Surfaces.TrackGradesSoften | map2kcal-1.0.0.js:714-727 | each higher track grade gets a strictly higher Crr and a strictly lower mu |
| Surfaces.TrackSurface | map2kcal-1.0.0.js:714-727 | track grade n gets the coefficients of table arm n+3 |
| Surfaces.FallbackSurfacesAreListed | map2kcal-1.0.0.js:710-732 | every fallback surface is one of the listed cases, so it never falls to the default |
| Exercise.NewExercise | map2kcal-1.0.0.js:916-926 | the base Exercise sets mExerciser = m, no braking estimate and a 500 m brake distance; it is usable exactly when speed and efficiency are positive |
| Exercise.CityCycling | map2kcal-1.0.0.js:1048-1053 | the city cycle adds 15 kg to the rider's mass and is usable exactly at positive speed |
| Exercise.RaceCycling | map2kcal-1.0.0.js:1057-1062 | the race cycle adds 5 kg and is usable exactly at positive speed |
| Exercise.RunningExercise | map2kcal-1.0.0.js:1069-1073 | running is an exercise of the runner's own mass, usable at positive speed |
| Exercise.WalkingExercise | map2kcal-1.0.0.js:1087-1091 | walking is an exercise of the walker's own mass, usable at positive speed |
| Exercise.DefaultPresets | map2kcal-1.0.0.js:1048-1091 | the four presets with their default speeds are all usable |
| Exercise.DragPower | map2kcal-1.0.0.js:934-940 | reference definition of Pd = Fd·(vr + headwind); no contract of its own, `Exercise.DragIgnoresKindAndRoad` states it is shared by all kinds and blind to surface and slope |
| Exercise.RollingLoad | map2kcal-1.0.0.js:985-1100 | reference definition of Pr without the surface factor: vr·m·g·cos for Cycling, the same over 5 for Running, the pendulum term times cos for Walking; no contract of its own, `Exercise.RunningIsAFifthOfCycling` and `Exercise.MudCostsMost` state its behaviour |
| Exercise.RollingPower | map2kcal-1.0.0.js:985-1100 | reference definition of Pr: the load times Crr for Cycling and divided by mu for Running and Walking; no contract of its own, `Exercise.MudCostsMost` proves mud needs the most rolling power |
| Exercise.SlopePower | map2kcal-1.0.0.js:1043-1155 | reference definition of Ps: vr·m·g·sin for Cycling, over 5 for Running, the pendulum term times sin for Walking; no contract of its own, `Exercise.SlopeIgnoresSurface` and `Exercise.RunningIsAFifthOfCycling` state its behaviour |
| Exercise.SectionPowers | map2kcal-1.0.0.js:931-933 | reference definition of the three powers P sums; no contract of its own, `Exercise.SectionScaled` and `Exercise.EnergyIsSumOfComponents` state how E uses them |
| Exercise.DragIgnoresKindAndRoad | map2kcal-1.0.0.js:934-940 | Pd is the same for every kind of exercise and unchanged by the section's surface and slope |
| Exercise.RunningIsAFifthOfCycling | map2kcal-1.0.0.js:1078-1083 | Running's rolling load and Ps are exactly a fifth of the Cycling formulas for the same exerciser and section |
| Exercise.SlopeIgnoresSurface | map2kcal-1.0.0.js:1043-1155 | Ps does not depend on the surface, and is zero for every kind wherever the incline's sine is zero |
| Exercise.MudCostsMost | map2kcal-1.0.0.js:985-1100 | for cycling, running and walking alike, rolling power is highest on mud |
| Exercise.PToW | map2kcal-1.0.0.js:944-946 | work times speed equals power times distance |
| Exercise.SectionEnergy | map2kcal-1.0.0.js:950-952 | reference definition of E: PToW of the total power divided by eta; no contract of its own, `Exercise.SectionScaled` and `Exercise.EnergyIsSumOfComponents` state its value |
| Exercise.ComponentEnergy | map2kcal-1.0.0.js:953-961 | reference definition of Ed, Er and Es: PToW of one power component, divided by eta; no contract of its own, `Exercise.ComponentScaled` states its value |
| Exercise.AccelerationEnergy | map2kcal-1.0.0.js:962-964 | the acceleration energy over a distance is the moving mass times a times the distance over eta |
| Exercise.BrakingEnergy | map2kcal-1.0.0.js:965-971 | no braking energy without the estimate; over one brake distance it equals the start-up acceleration energy |
| Exercise.AccelerationDistance | map2kcal-1.0.0.js:427-432 | the start-up distance satisfies d·2a = v² (v²/2a) and is 0 when a is 0 |
| Exercise.ComponentScaled | map2kcal-1.0.0.js:953-961 | a component's energy times vr times eta is the component's power times the distance |
| Exercise.SectionScaled | map2kcal-1.0.0.js:950-952 | a section's energy times vr times eta is the sum of the drag, rolling and slope powers times the distance |
| Exercise.EnergyIsSumOfComponents | map2kcal-1.0.0.js:950-961 | a section's energy E is the sum of its drag, rolling and slope energies Ed + Er + Es |
| Exercise.AccelerationIsKinetic | map2kcal-1.0.0.js:427-432 | accelerating over the whole start-up distance costs the kinetic energy m·v²/2 over eta |
| Exercise.AccelerationAdditive | map2kcal-1.0.0.js:962-964 | acceleration energy is additive over distances, so splitting the start-up over sections costs the same |
| Exercise.BrakingAdditive | map2kcal-1.0.0.js:965-971 | braking energy is additive over section distances |
| Exercise.CityCyclist | route.js:623-632 | the legacy city cyclist is usable, with the default mass 95 kg and 5 kg of wheels |
| Exercise.RacingCyclist | route.js:634-643 | the legacy racing cyclist is usable, with mass 95 kg and 5 kg of wheels |
| Exercise.Runner | route.js:645-651 | the legacy runner inherits speed 10 m/s, eta 0.9 and 5 kg of wheels from the Exerciser prototype |
| Exercise.LegacyPowers | route.js:527-597 | reference definition of route.js's Pd, Pr and Ps: Crr for every preset and gravity asked at the section's slope; no contract of its own, `Exercise.LegacyPowersAreCyclingAtSlope` relates it to the current formulas |
| Exercise.LegacyPowersAreCyclingAtSlope | route.js:530-597 | for the same drag area, mass and speed, route.js's three powers equal the current Cycling powers of the section with its slope put in place of its elevation |
| Exercise.LegacyPToW | route.js:601-603 | the legacy default divides by vr/2, so work times speed is twice power times distance |
| Exercise.LegacyAccelerationEnergy | route.js:598-621 | the legacy acceleration energy counts the wheel mass and the doubled PToW |
| Exercise.LegacySectionEnergy | route.js:607-609 | reference definition of route.js's E: PToW (speed halved) of the power already divided by eta, divided by eta again; no contract of its own, `Exercise.LegacyEnergyFactor` states its value |
| Exercise.LegacyComponentEnergy | route.js:610-618 | reference definition of route.js's Ed, Er and Es; no contract of its own, `Exercise.LegacyEnergyFactor` states that each is twice the current code's |
| Exercise.LegacyEnergyFactor | route.js:601-618 | legacy E divides by eta twice (once in P, once more in E) and doubles through PToW, so E·eta is twice the current engine's E; Ed+Er+Es equal E·eta |
| Energy.ConditionsOf | map2kcal-1.0.0.js:438-460 | reference definition of what calculateEnergy reads from the weather and the exercise: the winds for an angle and the three powers of a section; no contract of its own, `Energy.LegacyConditionsAtSlope` relates it to route.js's |
| Energy.LegacyConditionsOf | route.js:232-255 | reference definition of what processWeatherExerciser reads from the weather and the exerciser; no contract of its own, `Energy.LegacyConditionsAtSlope` states its relation to the current code |
| Energy.LegacyConditionsAtSlope | route.js:232-255 | both engines read the same wind functions, and route.js's powers of a section are the current Cycling powers of that section with its slope as its elevation |
| Energy.Winded | map2kcal-1.0.0.js:438-439 | reference definition of the winds recomputed from the section's angle, with the stored energy reset; no contract of its own, `Energy.RunFrame` proves every section calculateEnergy leaves is this one with only its stored energy set |
| Energy.StoreWithCarry | map2kcal-1.0.0.js:448-455 | the stored energy is never negative, the carry never positive, nothing is lost (stored + carry = section energy + old carry), and a negative carry stores 0 |
| Energy.Step | map2kcal-1.0.0.js:437-460 | reference definition of one iteration of calculateEnergy: winds, the acceleration share drawn from the pool, braking, the carry and the five totals; no contract of its own, `Routes.ChargeSection` is proved equal to it and `Energy.StepShares` states its pool arithmetic |
| Energy.Run | map2kcal-1.0.0.js:420-462 | the pass produces one stored section and one acceleration share per section |
| Energy.RunFrame | map2kcal-1.0.0.js:437-439 | the pass changes only each section's winds (recomputed from its angle) and its stored E |
| Energy.CarryInvariant | map2kcal-1.0.0.js:447-455 | every stored E is non-negative; a negative final carry means the last section stored 0; stored energies add up to total E minus the final carry, hence at least E |
| Energy.RunDraws | map2kcal-1.0.0.js:441-442 | the acceleration pool and shares of the pass are those of drawing min(distance, pool) section by section |
| Energy.StepShares | map2kcal-1.0.0.js:441-442 | unfolding helper for `Energy.RunDraws`: one step takes min(its distance, what is left) from the pool and appends it as the share; the properties that matter are in `Energy.DrawnInvariant` and `Energy.PoolInvariant` |
| Energy.DrawnInvariant | map2kcal-1.0.0.js:433-442 | the pool stays in [0, start-up distance]; each share lies in [0, section distance]; shares add up to start-up minus pool, which is min(start-up distance, route distance) |
| Energy.PoolInvariant | map2kcal-1.0.0.js:427-442 | the same facts for the pass itself: the acceleration covers exactly min(v²/2a, route length) |
| Energy.TotalsAgree | map2kcal-1.0.0.js:443-460 | the totals satisfy E = Ed + Er + Es + Ea after the pass |
| Energy.AccelerationTotal | map2kcal-1.0.0.js:444-445 | total Ea is the acceleration energy of the summed shares plus the braking energy of the whole route length |
| Energy.OneStart | map2kcal-1.0.0.js:427-445 | without braking, a route at least as long as the start-up distance is charged exactly one start, m·v²/2 over eta |
| Energy.RunOnSameInput | map2kcal-1.0.0.js:420-462 | the pass depends only on what it reads: sections equal except for winds and stored E give the same result |
| Energy.RunIdempotent | map2kcal-1.0.0.js:420-462 | recalculating the energy of already calculated sections changes nothing, because the totals are reset |
| Energy.LegacyRun | route.js:223-257 | the legacy pass produces one stored section per section |
| Energy.LegacyStep | route.js:232-255 | reference definition of one iteration of processWeatherExerciser: winds, the positive-share acceleration guard, the carry and the four totals; no contract of its own, `LegacyRoutes.ChargeLegacySection` is proved equal to it |
| Energy.LegacyRunAdds | route.js:223-257 | the legacy pass does not reset the totals: it adds its own totals to what the route held, and the sections do not depend on the old totals |
| Energy.LegacyRunFrame | route.js:231-251 | the legacy pass changes only winds and stored E; stored E is non-negative and the carry non-positive |
| Energy.LegacyRunOnSameInput | route.js:223-257 | the legacy pass depends only on the sections' inputs, not on earlier winds or stored E |
| Energy.LegacySecondPassDoubles | route.js:223-257 | running processWeatherExerciser twice keeps the sections but doubles every total |
| Energy.LegacyGuardIsHarmless | route.js:239-243 | an arithmetic fact behind the `aSectionDistance > 0` guard: a zero share costs no acceleration energy, so the guard gives the same energy as charging every share |
| OsmMatch.Replaces | map2kcal-1.0.0.js:635 | reference definition of the replacement test: `<=` on both axes in the current code, `<` in the older one; no contract of its own, `OsmMatch.TiesGoToLaterOrFirst` and `OsmMatch.OneAxisNeverReplaces` state its effect |
| OsmMatch.Visit | map2kcal-1.0.0.js:628-639 | reference definition of one iteration of findNodeId's loop: a node outside the tolerance is skipped, the first near node is recorded, a later one replaces it when Replaces holds; no contract of its own, `OsmMatch.OneAxisNeverReplaces` states when it keeps the record |
| OsmMatch.ClosestAmong | map2kcal-1.0.0.js:628-639 | reference definition of the record after the loop over the nodes in order; no contract of its own, `OsmMatch.ClosestAmongIsNear` proves it is None exactly when no node is near and otherwise a near node's record |
| OsmMatch.ClosestAmongIsNear | map2kcal-1.0.0.js:623-647 | no node is returned exactly when no node is within 10⁻⁶ on both axes; a returned record belongs to such a node |
| OsmMatch.FindNodeId | map2kcal-1.0.0.js:623-647 | findNodeId returns nothing exactly when no node is near, and otherwise the id of a near node |
| OsmMatch.NodeId | map2kcal-1.0.0.js:623-647 | reference definition of the id findNodeId returns; no contract of its own, `OsmMatch.FindNodeId` is proved to return it and `OsmMatch.ClosestAmongIsNear` states the match is within tolerance |
| OsmMatch.TiesGoToLaterOrFirst | map2kcal-1.0.0.js:635 | on an exact tie the current matcher (`<=`) takes the later node, while the legacy one (`<`, roadInfo.js:26) keeps the first |
| OsmMatch.OneAxisNeverReplaces | map2kcal-1.0.0.js:635 | a node closer on one axis but farther on the other never replaces the recorded one |
| OsmMatch.NotNecessarilyNearest | map2kcal-1.0.0.js:628-639 | the returned node need not be the nearest: the first near node stays when the second is better on one axis only |
| OsmMatch.SingleNodeNeverMatches | map2kcal-1.0.0.js:624-625 | when the OSM answer has a single node object (not an array) the loop never runs and no node matches |
| OsmMatch.ApplyTag | map2kcal-1.0.0.js:700-707 | reference definition of parseTag: highway always copied, surface and tracktype only by the current code; no contract of its own, `OsmMatch.LastHighwayWins` and `OsmMatch.ApplyTagsFrame` state its effect |
| OsmMatch.ApplyTags | map2kcal-1.0.0.js:694-698 | reference definition of parseTags; no contract of its own, `OsmMatch.ApplyTagsAppend` and `OsmMatch.ParseTags` state its behaviour |
| OsmMatch.MatchedTags | map2kcal-1.0.0.js:668-692 | reference definition of the tags parseWay applies: the way's tags once for each nd that refers to the id; no contract of its own, `OsmMatch.ParseWay` is proved to apply them and `OsmMatch.NoIdNoRefs` states none match without an id |
| OsmMatch.WaysTags | map2kcal-1.0.0.js:662-692 | reference definition of the tags parseWays applies, the ways in order; no contract of its own, `OsmMatch.ParseNode` is proved to apply them and `OsmMatch.NoIdNoTags` states there are none without an id |
| OsmMatch.ApplyWays | map2kcal-1.0.0.js:649-692 | reference definition of parseNode before the surface fallback: the tags of every way referring to the node, in order; no contract of its own, `OsmMatch.ParseNode` is proved to compute it |
| OsmMatch.RoadInfo | map2kcal-1.0.0.js:618-660 | reference definition of the coordinate after loadOsmRoadInfo; no contract of its own, `OsmMatch.RoadInfoProperties` and `OsmMatch.LoadOsmRoadInfo` state its behaviour |
| OsmMatch.ApplyTagsAppend | map2kcal-1.0.0.js:694-698 | parsing tags one after another composes: a+b is b applied after a |
| OsmMatch.ApplyTagsFrame | roadInfo.js:84-94 | tags never move a coordinate, and the legacy parser changes only `highway` |
| OsmMatch.LastHighwayWins | map2kcal-1.0.0.js:700-707 | without a highway tag the highway is unchanged; otherwise the last highway tag's value wins |
| OsmMatch.NoIdNoTags | map2kcal-1.0.0.js:683-684 | without a matched id no way contributes tags |
| OsmMatch.NoIdNoRefs | map2kcal-1.0.0.js:683-684 | without a matched id no node reference of a way matches |
| OsmMatch.NoMatchKeepsHighway | map2kcal-1.0.0.js:649-652 | with no matched node the highway is kept (the reset writes to the global object, not the coordinate); the legacy coordinate is unchanged, and the current one only gets the surface fallback |
| OsmMatch.RoadInfoProperties | map2kcal-1.0.0.js:618-660 | loading road info never moves the coordinate; the current version always leaves a surface; the legacy version changes only the highway; the highway is the last highway tag of the ways referring to the matched node |
| OsmMatch.ParseTags | map2kcal-1.0.0.js:694-698 | the loop applies the tags in order |
| OsmMatch.ParseWay | map2kcal-1.0.0.js:668-692 | a way applies its tags once for every one of its node references equal to the id |
| OsmMatch.ParseNode | map2kcal-1.0.0.js:649-660 | parseNode applies every way's tags and then, in the current version, the surface fallback |
| OsmMatch.LoadOsmRoadInfo | map2kcal-1.0.0.js:618-621 | loadOsmRoadInfo is findNodeId followed by parseNode |
| Metrics.BucketOf | map2kcal-1.0.0.js:480-490 | reference definition of the key a section's distance goes to: "undefined" without a highway, else its highway or surface; no contract of its own, `Metrics.HistogramCorrect` uses it |
| Metrics.Histogram | map2kcal-1.0.0.js:476-518 | reference definition of the object getHighways and getSurfaces return; no contract of its own, `Metrics.HistogramCorrect` proves each key holds the total distance of its sections and `Metrics.CollectDistances` is proved to compute it |
| Metrics.Lookup | map2kcal-1.0.0.js:482-486 | reference definition of reading `highways[key]` from the object as a list of pairs; no contract of its own, `Metrics.BumpFacts` and `Metrics.HistogramCorrect` state what it returns |
| Metrics.Bump | map2kcal-1.0.0.js:482-486 | reference definition of `if (h[k] == null) h[k] = d; else h[k] += d;`; no contract of its own, `Metrics.BumpFacts` states its effect |
| Metrics.BumpFacts | map2kcal-1.0.0.js:482-486 | adding to a bucket keeps keys distinct, adds to that key (or creates it) and leaves other keys alone; the total grows by the amount |
| Metrics.HistogramCorrect | map2kcal-1.0.0.js:476-496 | getHighways/getSurfaces have distinct keys; a key is present exactly when some section falls into it, with the summed distance of those sections; the buckets add up to the route distance |
| Metrics.UnusedIsZero | map2kcal-1.0.0.js:476-496 | a key no section falls into has no distance |
| Metrics.CollectDistances | map2kcal-1.0.0.js:498-518 | the loop builds exactly the histogram, whose buckets add up to the route distance |
| Metrics.GetDistance | map2kcal-1.0.0.js:520-526 | getDistance is the summed section distance, which both histograms also add up to |
| Metrics.GetSlope | map2kcal-1.0.0.js:572-578 | getSlope is the summed section slope |
| Routes.InheritRoads | map2kcal-1.0.0.js:468-473 | reference definition of parseOsmData's second loop: a section takes its first coordinate's highway and surface when both its coordinates have a highway; no contract of its own, `Routes.RoadsAfterOsmData` states the frame and the surface guarantee |
| Routes.LoadedCoordinates | map2kcal-1.0.0.js:465-467 | reference definition of parseOsmData's first loop: every coordinate is replaced by its road info from the same OSM answer; no contract of its own, `OsmMatch.RoadInfoProperties` states what each coordinate gains |
| Routes.RoadsAfterOsmData | map2kcal-1.0.0.js:464-474 | after parseOsmData only highway and surface change; a section between two highway coordinates has its first coordinate's highway and a surface; any other section is untouched |
| Routes.InvertedTotals | map2kcal-1.0.0.js:601-609 | inverting keeps the route distance and negates the total slope |
| Routes.RunKeepsTotals | map2kcal-1.0.0.js:420-462 | the energy pass keeps the route distance and total slope |
| Routes.CalculateBbox | map2kcal-1.0.0.js:332-345 | the loop computes the bounding box of a non-empty track and leaves the box alone for an empty one |
| Routes.ChargeSection | map2kcal-1.0.0.js:437-460 | one loop iteration of calculateEnergy is one step of the pass function |
| Routes.PassOver | map2kcal-1.0.0.js:427-461 | the loop of calculateEnergy leaves exactly the sections and totals of the energy pass `Energy.Run` over the given sections |
| Routes.Route.constructor | map2kcal-1.0.0.js:303-322 | a new route has no coordinates, sections or samples, zero energy and a zero box |
| Routes.Route.AddCoordinate | map2kcal-1.0.0.js:324-326 | the coordinate is appended and nothing else changes |
| Routes.Route.ProcessCoordinates | map2kcal-1.0.0.js:328-354 | the box becomes the track's bounds (kept for an empty track) and the sections are rebuilt from the coordinates |
| Routes.Route.CreateSections | map2kcal-1.0.0.js:347-353 | the sections are replaced by one per consecutive coordinate pair |
| Routes.Route.ProcessElevations | map2kcal-1.0.0.js:380-400 | the samples become the real samples, or for null or empty samples the corrected flat profile (the source throws here; see the Findings row for line 384); every section gets slope, mean elevation and corrected distance from its two samples |
| Routes.Route.CalculateEnergy | map2kcal-1.0.0.js:420-462 | sections and totals become those of the energy pass over the old sections |
| Routes.Route.ParseOsmData | map2kcal-1.0.0.js:464-474 | every coordinate loads its road info, then sections inherit highway and surface |
| Routes.Route.LoadRoads | map2kcal-1.0.0.js:465-467 | every coordinate loads its road info, nothing else changes |
| Routes.Route.CopyRoads | map2kcal-1.0.0.js:468-473 | sections between two highway coordinates inherit highway and surface |
| Routes.Route.InvertEach | map2kcal-1.0.0.js:605-607 | every section is inverted in place |
| Routes.Route.Invert | map2kcal-1.0.0.js:601-609 | coordinates and samples are reversed, the sections reversed and inverted, and the energy recalculated; null samples make `reverse()` throw after the coordinates were reversed |
| LegacyRoutes.LegacyWithElevations | route.js:200-211 | reference definition of the legacy elevation pass, one `LegacyElevated` per section; no contract of its own, `LegacyRoutes.LegacySlopesTelescope` relates it to the current pass |
| LegacyRoutes.LegacyElevated | route.js:204-209 | reference definition of one legacy section update: slope and corrected distance from the two samples, no elevation; no contract of its own |
| LegacyRoutes.LegacySlopesTelescope | route.js:200-211 | legacy sections agree with the current pass except that they keep their elevation (the legacy code sets none), and their slopes telescope to last minus first sample |
| LegacyRoutes.ChargeLegacySection | route.js:232-255 | one iteration of processWeatherExerciser's loop is one step of the legacy pass function |
| LegacyRoutes.LegacyPassOver | route.js:224-257 | the loop of processWeatherExerciser leaves the sections and totals of the legacy pass over the route's sections from the given totals |
| LegacyRoutes.LegacyRoute.constructor | route.js:127-143 | a new legacy route has no coordinates, sections or samples, zero totals and a zero box |
| LegacyRoutes.LegacyRoute.AddCoordinate | route.js:145-147 | the coordinate is appended and nothing else changes |
| LegacyRoutes.LegacyRoute.ProcessCoordinates | route.js:149-174 | the box becomes the track's bounds and the new sections are appended to the existing ones, so a second call duplicates them |
| LegacyRoutes.LegacyRoute.CreateSections | route.js:168-173 | the sections of consecutive coordinate pairs are appended, the list is never cleared |
| LegacyRoutes.LegacyRoute.ProcessElevations | route.js:200-216 | succeeds exactly when there are samples or no sections; then each section gets slope and corrected distance from its two samples; otherwise (the index error) it changes nothing |
| LegacyRoutes.LegacyRoute.ProcessWeatherExerciser | route.js:223-257 | sections and totals become those of the legacy pass started from the route's current totals |
| LegacyRoutes.LegacyRoute.ProcessOsmData | route.js:259-269 | coordinates load their highway with the legacy matcher, then sections inherit highway and surface |
| LegacyRoutes.LegacyRoute.LoadRoads | route.js:260-262 | every coordinate loads its road info, nothing else changes |
| LegacyRoutes.LegacyRoute.CopyRoads | route.js:263-268 | sections between two highway coordinates inherit highway and surface |
| Loader.Truthy | map2kcal-1.0.0.js:83 | reference definition of the truthiness test on `this.loaded["loadingCallback"]`; no contract of its own, `Loader.StoredSlot` and `Loader.ReportFinishesIffNothingPending` state where it matters |
| Loader.SlotOf | map2kcal-1.0.0.js:78-82 | reference definition of the value a report stores: true without an error, the error otherwise; no contract of its own, `Loader.StoredSlot` states it is never undefined |
| Loader.Pending | map2kcal-1.0.0.js:86-92 | reference definition of the loop's test for a module other than the flag still undefined; no contract of its own, `Loader.ReportFinishesIffNothingPending` spells out its negation as the finishing condition |
| Loader.StoredSlot | map2kcal-1.0.0.js:78-92 | a report never leaves its own module undefined, so the loop never waits on it; what it stores is truthy unless the error is status 0 |
| Loader.Report | map2kcal-1.0.0.js:77-100 | reference definition of finishLoadingModule: throws once the table is deleted, records the module, and finishes when a callback is set or nothing is pending; no contract of its own, `Loader.RouteLoader.FinishLoadingModule` is proved to follow it and `Loader.ReportFinishesIffNothingPending` states when it finishes |
| Loader.ReportFinishesIffNothingPending | map2kcal-1.0.0.js:77-100 | a report finishes loading exactly when no module other than the flag is left undefined; finishing publishes the table with the flag set, deletes it and notifies the listener once; otherwise only the table changes |
| Loader.AllReported | map2kcal-1.0.0.js:86-92 | once the three modules have each reported, no entry other than the flag is undefined |
| Loader.PublishedTable | map2kcal-1.0.0.js:93-94 | the table published after the three reports has the initial keys, the flag set, the map entry and each module's own result |
| Loader.AnyOrderFinishesOnce | map2kcal-1.0.0.js:77-154 | in any order, the first two reports return false and the third returns true; the third publishes a table with the flag set, the map entry and each module's own result, and notifies once; a fourth report throws |
| Loader.RouteLoader.constructor | map2kcal-1.0.0.js:17-36 | a new loader has no live table and the initial loadedModules |
| Loader.RouteLoader.InitializeLoading | map2kcal-1.0.0.js:146-154 | a fresh table with every module undefined is installed, nothing else changes |
| Loader.RouteLoader.FinishLoadingModule | map2kcal-1.0.0.js:77-100 | the method's new state and result are exactly those of the report function |
| Charts.MaxIndexFrom | map2kcal.charts-1.0.0.js:539-544 | the inner loop finds the first index of the largest remaining value |
| Charts.SwapBoth | map2kcal.charts-1.0.0.js:545-551 | the two swaps exchange positions i and j in both arrays and keep the (name, value) pairs as a multiset |
| Charts.SelectionSortNamesValuesDesc | map2kcal.charts-1.0.0.js:537-553 | values end non-increasing, names stay paired with their values (same multiset of pairs), and already sorted input is left as it is |
| Charts.PrefixTotalsGrow | map2kcal.charts-1.0.0.js:433-437 | with non-negative distances and energies the cumulative totals never decrease |
| Charts.KcalRows | map2kcal.charts-1.0.0.js:429-437 | the rows start at (0, 0); row i holds the km and kcal of the first i sections; both columns are non-decreasing when inputs are non-negative |
| Charts.ElevationAxis | map2kcal.charts-1.0.0.js:96-99 | one x value per sample; a single sample gives NaN (0/0); otherwise the axis runs from 0 to the distance in km in equal steps |
| Charts.AxisPoint | map2kcal.charts-1.0.0.js:96-99 | reference definition of the k-th x value, k·distance/(n−1)/1000; no contract of its own, `Charts.ElevationAxis` states the endpoints and equal steps |
| Charts.Percent | map2kcal.charts-1.0.0.js:491-494 | a finite share times the absolute total is 100 times the part; the share is NaN exactly when the total is 0 (0/0) |
| Charts.Shares | map2kcal.charts-1.0.0.js:490-494 | all four percentages are NaN exactly when every energy is 0, and all are numbers otherwise |
| Charts.SharesAddUp | map2kcal.charts-1.0.0.js:490-494 | each percentage keeps its energy's sign and their absolute values add up to 100 |
| Charts.FourShares | map2kcal.charts-1.0.0.js:490-494 | four values each divided by their absolute sum and scaled by 100 have absolute values adding to 100 and keep their signs |
| XmlJson.Convert | xmlToJson.js:24-57 | a text node converts to its string, every other node to an object |
| XmlJson.Named | xmlToJson.js:41-45 | the converted children of one name are never arrays, so the `push` test tells a grouped field apart |
| XmlJson.SetField | xmlToJson.js:33 | reference definition of `result[k] = v` on an object as a list of pairs; no contract of its own, `XmlJson.SetFieldFacts` states its effect |
| XmlJson.AttributeFields | xmlToJson.js:29-35 | reference definition of the `@attributes` object built from the attributes in order; no contract of its own, `XmlJson.AttributeFieldsDistinct` and `XmlJson.CollectAttributes` state its behaviour |
| XmlJson.InitialFields | xmlToJson.js:26-35 | reference definition of the object before the child loop: `@attributes` for an element with attributes, otherwise empty; no contract of its own, `XmlJson.ElementConversion` and `XmlJson.EmptyElement` state its part of the result |
| XmlJson.SetFieldFacts | xmlToJson.js:33 | assigning a property keeps keys distinct, sets that key and leaves the others |
| XmlJson.AddChild | xmlToJson.js:44-52 | reference definition of adding one converted child under its name: a new field, or a value that becomes or grows an array; no contract of its own, `XmlJson.AddChildKeeps` and `XmlJson.AddChildFacts` state its behaviour |
| XmlJson.AddChildKeeps | xmlToJson.js:44-52 | adding a child keeps the keys distinct and leaves every other name's property as it was |
| XmlJson.AddChildFacts | xmlToJson.js:44-52 | adding a child stores it alone, wraps a single earlier sibling into an array with it, or pushes onto the array, so the child's field goes from the grouping of its earlier namesakes to the grouping with it appended |
| XmlJson.AttributeFieldsDistinct | xmlToJson.js:29-35 | the attribute object has distinct keys |
| XmlJson.GroupStep | xmlToJson.js:41-53 | one more child keeps a name's field equal to the grouping of the children so far that bear that name |
| XmlJson.FoldChildren | xmlToJson.js:40-55 | reference definition of the loop over the child nodes; no contract of its own, `XmlJson.FoldChildrenDistinct`, `XmlJson.FoldChildrenGroups` and `XmlJson.FoldChildrenUnnamed` state its result |
| XmlJson.FoldChildrenDistinct | xmlToJson.js:40-55 | the child loop keeps the object's keys distinct |
| XmlJson.FoldChildrenGroups | xmlToJson.js:40-55 | after the first k children the field of every name other than `@attributes` is the grouping of those children bearing that name |
| XmlJson.FoldChildrenUnnamed | xmlToJson.js:40-55 | a name no child bears, `@attributes` in particular, keeps the property it had before the child loop |
| XmlJson.ElementConversion | xmlToJson.js:24-57 | an element's object has distinct keys, `@attributes` exactly when it has attributes (holding them), and one field per child name: the single child, or all of them as an array in document order |
| XmlJson.NamedEmptyIffAbsent | xmlToJson.js:41-45 | a name has no converted children exactly when no child bears it |
| XmlJson.EmptyElement | xmlToJson.js:26-28 | an element with no attributes and no children becomes `{}` |
| XmlJson.CollectAttributes | xmlToJson.js:29-35 | the attribute loop builds the attribute object, with distinct keys |
| XmlJson.XmlToJson | xmlToJson.js:24-57 | the recursive method computes exactly the conversion function |

## Left out

- Geodesy and trigonometry are parameters (`Geo.Geodesy`, `hypot`, `Exercise.Physics`, `Energy.Conditions`). These include Vincenty's and the haversine distance, the heading angle, the wind decomposition, air density, gravity and the walking pendulum term. They are floating-point formulas whose values the model does not need.
- Floating point is modelled as exact reals. Rounding error, infinities and NaN propagation are not modelled, except for the 0/0 cases of the charts.
- Division by zero in the power formulas (eta, vr, the brake distance) is excluded by `Exercise.Valid` and `Exercise.ValidExerciser` rather than modelled as NaN or Infinity; both predicates require these values to be positive, so exercisers with a negative speed, efficiency or brake distance are excluded as well.
- TypeErrors on OSM answers that lack `node`, `way`, `nd`, `tag` or `@attributes` entries are not modelled. The model's OSM answer, `OsmMatch.Osm`, always has them.
- Missing attributes of a tag are not modelled either.
- `getElevationCoordinate`, the Mercator centre and the map zoom are left out because they only feed rendering.
- The HTML tooltips, the Google Maps and Google Charts calls, `loadApi`, `createRouteFromGpx` and the network requests are left out; they are I/O.
- `parseXml` is left out: it is the browser's DOM parser.
- `fat87ToKcal`, `bmr`, `bmi` and `met` are left out. They are single formulas that nothing in the core calls.
- Exercise.LegacyPowers: route.js's legacy rolling and slope power pass the slope, not the elevation, as g's second argument. The model passes it through `Physics.g` as written; `Exercise.LegacyPowersAreCyclingAtSlope` states the difference, and nothing about gravity itself is proved, because g is a parameter.
- Metrics.Histogram: the histogram is an ordered list of buckets in first-use order. The property order JavaScript gives integer-like keys is not modelled. Nor are highway or surface values that collide with `Object.prototype` members, such as `constructor` or `toString`: the `== null` tests at map2kcal-1.0.0.js:482 and 504 see those as already set, so the source would take the `+=` branch and concatenate strings, while the model starts a new bucket.
- Geo.NewSection: the model sets the section's stored energy E to 0, while the Section constructor never assigns E, so it stays undefined until calculateEnergy runs. Code that reads a section's E before then would see undefined (NaN in arithmetic) where the model has 0.
- Routes.Route.CalculateEnergy: it takes the weather and exercise formulas as an `Energy.Conditions` value rather than the route's `weather` and `exercise` objects.
- LegacyRoutes.LegacyRoute.ProcessWeatherExerciser: it takes its formulas as `Energy.Conditions` in the same way.
- Routes.PassOver: the loop runs on local copies of the sections and energy totals, which `Routes.Route.CalculateEnergy` then stores; the source updates `this.sections` and the route's totals in place at each iteration, and no other code observes the intermediate states.
- LegacyRoutes.LegacyPassOver: the loop runs on local copies of the sections and totals, which the route method then stores; the source updates the route's sections and totals in place at each iteration, and no other code observes the intermediate states.
- Loader.RouteLoader.FinishLoadingModule: `onLoadingFinished` is modelled as a flag saying whether a listener is set and a counter of its calls. What the listener does is not modelled.
- Loader.RouteLoader.FinishLoadingModule: `loadedModules` is published by reference in the source. The model copies the value, so later aliasing through `loaded` is not captured.
- Loader.RouteLoader.constructor: the API keys and the callback fields are left out. Only the completion table is modelled.
- XmlJson.Convert: child names that collide with `Object.prototype` members are not modelled, such as `constructor` or `toString`, which `typeof result[nodeName]` would see as defined. A child element named `push` is not modelled either.
- Charts.SelectionSortNamesValuesDesc: it requires the two arrays to have equal lengths. The source iterates over `values` and would write past a shorter `names` array.
- LegacyRoutes.LegacyWithElevations: the legacy Section keeps whatever elevation it had (the legacy constructor sets none; the model's section type carries the field).
- The global variables `section` and `key`, which the source creates by assigning without `var`, are not modelled.
- Rendering of the charts, their colours and sorting of the series outside the numeric rows are left out.

## Findings

| source | as written | input that shows it | evidently intended | confidence | as-written member | corrected member |
|---|---|---|---|---|---|---|
| map2kcal-1.0.0.js:384 | the zero-sample fallback of processElevations pushes into the unbound name `elevations` instead of `this.elevations`, so it throws | a route with at least one coordinate whose elevation samples are null or empty | a flat profile: one sample of elevation 0 per coordinate, giving every section slope 0 | not executed | Geo.ProfileAsWrittenThrows | Geo.ZeroProfileIsFlat |
