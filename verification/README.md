# AutoProf isophote fitting, axial profiles and PSF estimate — a Dafny model

This project models three steps of the AutoProf galaxy photometry pipeline.

1. **The isophote fitter.** It has a robust variant (FFT loss on samples clipped at a quantile, relative to the median) and a mean variant (FFT loss relative to the mean). The model covers:
   - the choice of sampling radii, with up to five progressively slower growth rates;
   - the regularised second-Fourier-coefficient loss;
   - the stochastic local search over ellipticity and position angle;
   - the collapsed-centre repair;
   - the inner-ellipticity clamp;
   - the smoothing;
   - the windowed error estimate.

   The forced variant is modelled too. It reads the ellipse parameters from an existing comma-separated profile file.
2. **Axial profiles.** A grid of radii; surface brightness and its error binned along lines parallel to the major and minor axes, for four families of lines; and the comma-separated file they are written to.
3. **The PSF estimate by star finding.** A user value, a guess, a central search mask, and a deformity cut raised in steps of 0.1 until enough stars pass. The result is the median FWHM of the stars kept.

Modules follow the program's structure:

| module | models |
|---|---|
| `Common` | options with defaults, Python float modulo, numpy's pi and ln 10, loss values with numpy's argmin order |
| `Text` | `str.split`, `str.join`, `str.strip` |
| `Radii` | sampling radii |
| `Loss` | robust and mean losses |
| `Search` | the fitting loop |
| `PostProcess` | centre collapse, clamp, errors, angle recombination |
| `IsophoteFit` | the fitter end to end |
| `ForcedProfile` | the forced fit |
| `AxialProfiles` | axial profiles |
| `Psf` | the PSF estimate |

The numerical routines the program calls are parameters of the model (function-valued fields of small datatypes), each with a `Valid` predicate stating only what the model assumes of it. These routines are:
- the ellipse and line samplers;
- the FFT amplitude;
- median, mean, quantile, average and scatter;
- the ellipticity transform;
- the angle difference;
- the Huber smoothers;
- the square root;
- the flux-to-magnitude conversion;
- number formatting and parsing;
- the star finder.

The random numbers of the search are a parameter too. A shuffle of the visiting order is indexed by pass. A normal draw is indexed by pass, radius and perturbation.

## Model

| member | source | states |
|---|---|---|
| `Common.OrElse` | autoprofutils/Isophote_Fit.py:99-102 | An option given by the user is used as is; an absent option takes its default. |
| `Common.FMod` | autoprofutils/Isophote_Fit.py:159 | Python's float `%` with a positive modulus lands in [0, m) and leaves values already in [0, m) unchanged. |
| `Common.LossLeTotalPreorder` | autoprofutils/Isophote_Fit.py:163 | The order np.argmin ranks losses by (NaN first, then numbers, then infinity) is reflexive, total and transitive, so "first least index" is well defined. |
| `Text.Split` | autoprofutils/Isophote_Fit.py:241 | Splitting at a separator gives at least one piece, no piece holds the separator, and joining the pieces with it gives the line back. |
| `Text.SplitJoin` | autoprofutils/Axial_Profiles.py:62-81 | A row written by joining comma-free fields with commas splits back into exactly those fields. |
| `Text.StripIsTrim` | autoprofutils/Isophote_Fit.py:241 | A stripped field is a slice of the field with only whitespace removed at either end, and it neither starts nor ends with whitespace. |
| `Text.StripIdempotent` | autoprofutils/Isophote_Fit.py:245 | Stripping a stripped field changes nothing. |
| `Radii.Growth` | autoprofutils/Isophote_Fit.py:120 | On attempt `shrink` the ratio between neighbouring radii lies in (1, 1 + scale]. |
| `Radii.RadiiFrom` | autoprofutils/Isophote_Fit.py:115-120 | The inner radius loop starts at the radius it is given. |
| `Radii.RadiiFromShape` | autoprofutils/Isophote_Fit.py:115-120 | The inner radius loop grows each radius into the next. It continues only while the radius is inside half the image and its ring is not fainter than the threshold, stops at the first radius that fails, and yields strictly increasing radii. |
| `Radii.RadiiFromUnique` | autoprofutils/Isophote_Fit.py:115-120 | Any sequence with that shape is the one the loop produces. |
| `Radii.RadiusSetShape` | autoprofutils/Isophote_Fit.py:114-120 | A radius set starts at 1.5 PSF FWHM and multiplies by `1 + scale/(1 + shrink)` each step. Every radius but the last is inside the image and bright enough, the last is not, and the set increases strictly. |
| `Radii.SampleRadii` | autoprofutils/Isophote_Fit.py:114-120 | The while loop computes exactly the radius set of the attempt. |
| `Radii.GrowRadii` | autoprofutils/Isophote_Fit.py:115-120 | The growth loop terminates and yields the radii of the functional definition. |
| `Radii.InitRadii` | autoprofutils/Isophote_Fit.py:112-126 | Fails exactly when none of the five growth rates gives 15 radii. Otherwise it returns the set of the first attempt that does, with at least 15 radii. |
| `Loss.Bandwidth` | autoprofutils/Isophote_Fit.py:85 | The angle scale the regulariser divides by is positive for both variants, so the angle term is defined. |
| `Loss.NeighbourTerm` | autoprofutils/Isophote_Fit.py:84-85 | A neighbour's penalty is never negative. |
| `Loss.NeighbourTermZero` | autoprofutils/Isophote_Fit.py:84-85 | A neighbour adds no penalty exactly when its ellipticity is equal and the difference of the doubled angles is zero. |
| `Loss.Regularizer` | autoprofutils/Isophote_Fit.py:82-88 | The regulariser is non-negative and at least each existing neighbour's penalty. |
| `Loss.RegularizerLocal` | autoprofutils/Isophote_Fit.py:82-88 | The regulariser at radius i reads only radii i-1, i and i+1. |
| `Loss.RegularizerZero` | autoprofutils/Isophote_Fit.py:82-88 | The regulariser vanishes exactly when every existing neighbour has the same ellipticity and a zero angle difference; a single isophote is never penalised. |
| `Loss.F2` | autoprofutils/Isophote_Fit.py:80 | The Fourier term is non-negative and zero exactly when the second coefficient's amplitude is zero. |
| `Loss.Compose` | autoprofutils/Isophote_Fit.py:90 | The regulariser only inflates the Fourier term, and a zero weight or zero regulariser leaves it unchanged. |
| `Loss.ClipAbove` | autoprofutils/Isophote_Fit.py:76-78 | Clipping keeps the length, lowers exactly the samples above the level to the level, and leaves the others unchanged. |
| `Loss.ClipAboveIdempotent` | autoprofutils/Isophote_Fit.py:76-78 | Clipping twice at the same level is clipping once. |
| `Loss.FourierLoss` | autoprofutils/Isophote_Fit.py:74-80 | The Fourier term of finite samples is non-negative. It is zero exactly when the second coefficient's amplitude is zero, taken over the samples clipped at the quantile (robust variant) or over the raw samples (mean variant). |
| `Loss.BaseLoss` | autoprofutils/Isophote_Fit.py:71-80 | Before regularisation the loss is NaN (robust variant) or infinity (mean variant) exactly when a sample is non-finite. Otherwise it is a non-negative number. |
| `Loss.Weighted` | autoprofutils/Isophote_Fit.py:90 | Weighting keeps NaN and infinity as they are, keeps a number a number, and never lowers it. |
| `Loss.ComposedIsProduct` | autoprofutils/Isophote_Fit.py:90 | A composed loss is the Fourier term times one plus the regulariser times the weight. |
| `Loss.FitLossWeight` | autoprofutils/Isophote_Fit.py:90 | The weight never decides whether the loss is a number. A loss that is a number equals the loss at weight zero times one plus the regulariser times the weight. |
| `Loss.FitLoss` | autoprofutils/Isophote_Fit.py:71-90 | The loss is NaN (robust variant) or infinity (mean variant) exactly when a sample is non-finite. Otherwise it is a non-negative number. |
| `Loss.FitLossLocal` | autoprofutils/Isophote_Fit.py:71-90 | The loss at radius i depends on the profile only through radii i-1, i and i+1. |
| `Loss.EarlyLossIgnoresNeighbours` | autoprofutils/Isophote_Fit.py:152-153 | During the first four passes, when the regulariser weight is zero, the loss at a radius ignores the rest of the profile. |
| `Search.PerturbModes` | autoprofutils/Isophote_Fit.py:156-159 | Every pass perturbs at least one parameter, and both exactly when `count % 3 == 1`. |
| `Search.Perturb` | autoprofutils/Isophote_Fit.py:155-159 | A perturbation changes only radius i. It keeps the ellipticity in [0, 1), leaves a parameter alone on passes that do not step it, and puts a stepped angle in [0, pi). |
| `Search.Candidates` | autoprofutils/Isophote_Fit.py:150-161 | A visit compares six profiles, the current one first, each differing from it at most at radius i. |
| `Search.Losses` | autoprofutils/Isophote_Fit.py:152-161 | Each candidate's loss is the fit loss of that candidate at radius i. |
| `Search.ArgMin` | autoprofutils/Isophote_Fit.py:163 | `np.argmin` returns an index of a least loss, with every earlier loss strictly greater. |
| `Search.ArgMinUnique` | autoprofutils/Isophote_Fit.py:163 | That characterisation determines the index uniquely. |
| `Search.ArgMinMoves` | autoprofutils/Isophote_Fit.py:163-164 | The chosen index is not the current profile exactly when some perturbation is strictly better than it. |
| `Search.Step` | autoprofutils/Isophote_Fit.py:149-169 | A visit commits the first best candidate and resets the stall counter if a perturbation strictly beats the current profile. Otherwise it keeps the profile and counts one visit without change. Only radius i changes. |
| `Search.RunPass` | autoprofutils/Isophote_Fit.py:149-169 | A pass keeps the profile admissible. Either the profile is unchanged and the stall counter grew by the pass length, or the counter was reset during the pass and ends below the pass length. |
| `Search.Run` | autoprofutils/Isophote_Fit.py:142-169 | The loop keeps the profile admissible and stops after at most 300 passes; when it stops early, the stall counter has reached three times the number of radii. |
| `Search.Advance` | autoprofutils/Isophote_Fit.py:146-169 | One iteration of the loop counts one more pass and, with the next shuffled order, keeps the loop heading for the same final state. |
| `Search.Identity` | autoprofutils/Isophote_Fit.py:141 | The first visiting order is 0, 1, ..., n-1. |
| `Search.Fit` | autoprofutils/Isophote_Fit.py:137-169 | The while loop computes the functional search from pass 0, makes at most 300 passes, at least one when there are radii, and keeps the profile admissible. |
| `Search.Pass` | autoprofutils/Isophote_Fit.py:149-169 | The loop over the shuffled order computes the functional pass. |
| `PostProcess.CollapseCentre` | autoprofutils/Isophote_Fit.py:173-176 | The loop computes exactly the fold `Collapse`: steps 0 to 4 in turn, each flattening ellipticity and angle to radius i+1 when the drop after radius i exceeds 0.5. After the pass, no such drop remains among the first five transformed ellipticities. Radii from 5 on are untouched, and each inner radius holds the ellipticity and angle pair of some radius at or beyond it. |
| `PostProcess.SettlesFrom` | autoprofutils/Isophote_Fit.py:173-176 | Whatever the profile, once the fold has run no drop larger than 0.5 remains among the first five radii; flattening at step i also levels the drops before it. |
| `PostProcess.SteadyFrom` | autoprofutils/Isophote_Fit.py:173-176 | Steps whose drops are all at most 0.5 leave the profile as it is. |
| `PostProcess.CollapseSteady` | autoprofutils/Isophote_Fit.py:173-176 | The pass changes a profile exactly when one of its first five drops exceeds 0.5, and running it twice gives the same as running it once. |
| `PostProcess.Flatten` | autoprofutils/Isophote_Fit.py:176-177 | Radii 0 to i take the value of radius i+1; the others keep theirs. |
| `PostProcess.ClampInner` | autoprofutils/Isophote_Fit.py:183 | The first three ellipticities (all, if fewer) become their minimum; the rest are unchanged. |
| `PostProcess.ClampInnerIdempotent` | autoprofutils/Isophote_Fit.py:183 | Clamping twice is clamping once, and clamping keeps ellipticities in [0, 1). |
| `PostProcess.ErrorWindow` | autoprofutils/Isophote_Fit.py:216-224 | The window of the error at a radius contains that radius and has four radii once the profile has four. With four or more radii, radii 0 and 1 use radii 0 to 3, the last radius uses the last four, and every radius i from 2 with i+2 at most n uses i-2 to i+1. With fewer than four radii every window is the whole profile. |
| `PostProcess.ErrorWindowSlides` | autoprofutils/Isophote_Fit.py:222-224 | Every interior radius from 2 on is the third of its window, and the window slides by one from radius to radius. |
| `PostProcess.SumSqZeroIff` | autoprofutils/Isophote_Fit.py:223 | The summed squared deviation over a window is zero if and only if the profile equals the smooth one there. |
| `PostProcess.SumSqZero` | autoprofutils/Isophote_Fit.py:223 | A zero summed squared deviation forces the two sequences to be equal. |
| `PostProcess.WindowError` | autoprofutils/Isophote_Fit.py:223 | The error at a radius is non-negative, and zero if and only if the profile equals the smooth one over its window. |
| `PostProcess.Errors` | autoprofutils/Isophote_Fit.py:216-224 | There is one error per radius. Each is the square root of a quarter of the summed squared deviation from the smooth profile over that radius's window, is non-negative, and is zero if and only if the profile matches the smooth one throughout the window. |
| `PostProcess.PerfectFitNoError` | autoprofutils/Isophote_Fit.py:216-224 | A profile equal to its smoothed version has zero error everywhere. |
| `PostProcess.RecombinePa` | autoprofutils/Isophote_Fit.py:68 | The recombined smoothed angle always lies in [0, pi). |
| `PostProcess.RecombinePaBranches` | autoprofutils/Isophote_Fit.py:68 | A negative cosine adds pi before halving, a non-negative cosine with a non-negative arctangent halves it directly, and a non-negative cosine with a negative arctangent adds 2 pi before halving. |
| `IsophoteFit.InitialProfile` | autoprofutils/Isophote_Fit.py:127-128 | The search starts with every radius at the initial ellipticity and angle. |
| `IsophoteFit.CollapseKeeps` | autoprofutils/Isophote_Fit.py:174-177 | The centre repair only copies values between radii, so ellipticities stay in [0, 1) and angles stay admissible. |
| `IsophoteFit.Finish` | autoprofutils/Isophote_Fit.py:172-228 | With C the collapsed profile (`Collapse`): the ellipticities are C's ellipticities with the first three clamped to their minimum, the angles are C's angles, the ellipticity errors compare the clamped ellipticities with the smoothed unclamped ones, the angle errors compare C's angles with their smoothed version, and the fit limit is the outermost radius. Every output array has one entry per radius, ellipticities lie in [0, 1), angles are the initial one or in [0, pi), and errors are non-negative. |
| `IsophoteFit.FitIsophotes` | autoprofutils/Isophote_Fit.py:92-229 | The fit fails exactly when no growth rate gives 15 radii. Otherwise its radii are those of the first attempt that gives 15, and the result is what `Finish` makes of the profile that the search (`Run`, from pass 0 with every radius at the initial guess) ends at. The result is well-formed. |
| `ForcedProfile.HeaderIndex` | autoprofutils/Isophote_Fit.py:237-240 | The header is the first line not starting with `#`, and all earlier lines are comments. An empty line before it fails, and a file of comments has no header. |
| `ForcedProfile.Fields` | autoprofutils/Isophote_Fit.py:241 | A line's fields are its comma-separated pieces, each stripped. |
| `ForcedProfile.EmptyTable` | autoprofutils/Isophote_Fit.py:242 | The table starts with one empty column per header name. |
| `ForcedProfile.AddRow` | autoprofutils/Isophote_Fit.py:244-245 | Reading a line keeps the table's columns, and it fails only on a field that is not a number. |
| `ForcedProfile.AddRows` | autoprofutils/Isophote_Fit.py:243-245 | Reading the data lines keeps the table's columns, and it fails only on a field that is not a number. |
| `ForcedProfile.Table` | autoprofutils/Isophote_Fit.py:235-245 | On success the header is the stripped fields of the first non-comment line, and the columns are exactly its names. A failure is a header failure or a bad number. |
| `ForcedProfile.TableOf` | autoprofutils/Isophote_Fit.py:242-245 | Filling a table keeps the header, has exactly its names as columns, and fails only on a bad number. |
| `ForcedProfile.TableOfColumns` | autoprofutils/Isophote_Fit.py:242-245 | Filling succeeds exactly when every field under a name parses. With distinct names, each column is then that column of the rows. |
| `ForcedProfile.AddRowColumn` | autoprofutils/Isophote_Fit.py:244-245 | A data line is read exactly when its fields under the header parse. With distinct names, each column then gains that line's field, when the line is long enough to reach it. |
| `ForcedProfile.AddRowsColumns` | autoprofutils/Isophote_Fit.py:243-245 | The data lines are read exactly when every field under a name parses. With distinct names, each column then holds its earlier values followed by that column of the data, in file order. |
| `ForcedProfile.TableColumns` | autoprofutils/Isophote_Fit.py:237-245 | Without a header line the table fails with the header search's error. With one, the table is read exactly when every field under a name parses, and its keys are the header names. With distinct names, each column is that column of the lines from two below the header on. |
| `ForcedProfile.ToRadians` | autoprofutils/Isophote_Fit.py:265 | Each angle converted to radians, times 180, equals the degree value times pi. |
| `ForcedProfile.ToPixels` | autoprofutils/Isophote_Fit.py:266 | Each radius in pixels, times the pixel scale, gives the arcsec value back. |
| `ForcedProfile.FromTable` | autoprofutils/Isophote_Fit.py:247-269 | The fit fails exactly when `pa`, `ellip` or `R` is missing, and names the first missing one in that order. Otherwise ellipticity is the `ellip` column, angles are the shifted `pa` in radians, radii are `R` in pixels, and errors are present exactly when both error columns are. |
| `ForcedProfile.FromColumns` | autoprofutils/Isophote_Fit.py:247-269 | A table keyed by the header names gives a fit exactly when `pa`, `ellip` and `R` are header names, and otherwise names the first of them missing. Error columns come exactly with both `ellip_e` and `pa_e`, and with distinct names and columns matching the data, the fit holds the data columns, converted. |
| `ForcedProfile.ForcedFit` | autoprofutils/Isophote_Fit.py:231-270 | Without a header line, the header search's error is reported. With a header, the fit succeeds exactly when every data field under a header name parses and `pa`, `ellip` and `R` are header names. An unparsable field is reported as such; otherwise the first of `pa`, `ellip`, `R` missing is reported. Error columns are present exactly when `ellip_e` and `pa_e` both are. With distinct names, the ellipticities are the `ellip` column of the data lines, the angles are the shifted `pa` column in radians, the radii are the `R` column in pixels, and the errors are the `ellip_e` column and the `pa_e` column in radians. |
| `AxialProfiles.Next` | autoprofutils/Axial_Profiles.py:27-31 | The next grid radius is at least one pixel further: the proposed step when it exceeds one, else exactly one. |
| `AxialProfiles.GridFrom` | autoprofutils/Axial_Profiles.py:26-31 | Radii are added exactly while the last is below the limit; each is `Next` of the one before, and the final one reaches the limit. |
| `AxialProfiles.GridShape` | autoprofutils/Axial_Profiles.py:25-31 | The grid starts at 0 with gaps of at least a pixel and stops at the first radius reaching the limit. A positive limit gives at least two radii, and the geometric mode's first step is exactly one pixel. |
| `AxialProfiles.GridUnique` | autoprofutils/Axial_Profiles.py:25-31 | Any sequence with the grid's shape is the grid. |
| `AxialProfiles.BuildGrid` | autoprofutils/Axial_Profiles.py:25-31 | The while loop builds exactly the grid. |
| `AxialProfiles.ProfileLimit` | autoprofutils/Axial_Profiles.py:20-23 | The limit is the photometry's outermost radius in pixels when there is one, else half the smaller image side. |
| `AxialProfiles.BranchesCover` | autoprofutils/Axial_Profiles.py:35-36 | The four families are distinct and are all four sign pairs. |
| `AxialProfiles.AxisPa` | autoprofutils/Axial_Profiles.py:16 | The axis is the initial angle, turned by the user's angle in degrees converted to radians when given. |
| `AxialProfiles.BranchPa` | autoprofutils/Axial_Profiles.py:40 | A family's line direction lies in [0, 2 pi) and differs from the axis plus `ang * pi/2` by whole turns. |
| `AxialProfiles.BranchesOpposite` | autoprofutils/Axial_Profiles.py:40 | The two directions used for a side differ by exactly pi. |
| `AxialProfiles.OriginsOnAxis` | autoprofutils/Axial_Profiles.py:46-47 | Both families of a side start their lines at the same point, `rd * pR` along the major axis. |
| `AxialProfiles.BinLengthAtLeastOne` | autoprofutils/Axial_Profiles.py:44-49 | Every bin and line width on the grid is at least one pixel. |
| `AxialProfiles.Chosen` | autoprofutils/Axial_Profiles.py:50 | The chosen samples are, in ascending order, exactly those whose position lies strictly inside the bin. |
| `AxialProfiles.ChosenUnique` | autoprofutils/Axial_Profiles.py:50 | A list of indices is an increasing list of exactly the in-bin samples if and only if it is the chosen list. |
| `AxialProfiles.Cell` | autoprofutils/Axial_Profiles.py:51-58 | An empty bin or a non-positive average gives the 99.999 sentinel twice. Otherwise the brightness is the converted average, and the error times `sqrt(n) * average * ln 10` is 2.5 times the scatter. |
| `AxialProfiles.Bin` | autoprofutils/Axial_Profiles.py:48-54 | The bin is the cell of the fluxes, in sample order, of exactly the samples of its line whose positions fall strictly inside the bin. A bin that no sample falls in holds the sentinel pair. |
| `AxialProfiles.Tables` | autoprofutils/Axial_Profiles.py:33-58 | There are four families of `len(R)` lines by `len(R)` bins, and each entry is the bin of that family, line and radius. |
| `AxialProfiles.ColumnRoundTrip` | autoprofutils/Axial_Profiles.py:63-66 | Each family, radius and quantity has a column in the table, and decoding that column gives them back. |
| `AxialProfiles.ColumnKeyInRange` | autoprofutils/Axial_Profiles.py:74-80 | Every data column belongs to one family, radius and quantity, and re-encoding them gives the column back. |
| `AxialProfiles.LabelNoComma` | autoprofutils/Axial_Profiles.py:66 | A header label never contains a comma. |
| `AxialProfiles.HeaderFields` | autoprofutils/Axial_Profiles.py:62-67 | The header is `R` then one label per column, `1 + 8 len(R)` fields. |
| `AxialProfiles.UnitsFields` | autoprofutils/Axial_Profiles.py:68-73 | The units row is `arcsec` then the magnitude unit for every column. |
| `AxialProfiles.DataFields` | autoprofutils/Axial_Profiles.py:74-81 | A data row is the radius in arcsec to four decimals, then one field per column. |
| `AxialProfiles.HeaderColumns` | autoprofutils/Axial_Profiles.py:62-67 | The header column of a family, radius and quantity is labelled with that family's signed radius in arcsec and its direction. |
| `AxialProfiles.DataColumns` | autoprofutils/Axial_Profiles.py:74-81 | The same column of a data row holds that family's brightness or error for that line at the row's bin. |
| `AxialProfiles.Rows` | autoprofutils/Axial_Profiles.py:61-81 | The file has a header, a units row and one row per radius, each its fields joined with commas. |
| `AxialProfiles.RowsLayout` | autoprofutils/Axial_Profiles.py:61-81 | Splitting each written line at commas gives exactly its fields back, and every line has `1 + 8 len(R)` fields. |
| `AxialProfiles.AxialProfile` | autoprofutils/Axial_Profiles.py:13-81 | The radii are the grid up to the limit `ProfileLimit` takes from the options. Entry [b][p][q] of the four square tables is the bin at radius q of the family-b line through radius p, about the axis angle `AxisPa` takes from the options. The file is the header, the units row and one row per radius written from those tables. |
| `Psf.Guess` | autoprofutils/PSF.py:72-76 | A user guess wins. Otherwise the guess is one arcsec in pixels but never below one pixel, and a zero pixel scale fails. |
| `Psf.Band` | autoprofutils/PSF.py:79-80 | The searched band of a side lies within it. |
| `Psf.BandCentred` | autoprofutils/PSF.py:79-80 | The band is centred to within a pixel, and not empty once the side has two pixels. |
| `Psf.EdgeMask` | autoprofutils/PSF.py:78-80 | The mask has the image's shape and is true exactly on the central band of rows and columns. |
| `Psf.Count` | autoprofutils/PSF.py:87 | No more stars pass the cut than there are. |
| `Psf.CountAll` | autoprofutils/PSF.py:87 | A cut above every deformity passes every star. |
| `Psf.NeedAtMostAll` | autoprofutils/PSF.py:84-87 | With more than ten stars, `max(10, 2n/3)` is at most n, so the loop can succeed. |
| `Psf.CutPassesAll` | autoprofutils/PSF.py:86-88 | After enough raises the cut lies above every deformity. |
| `Psf.EnoughPastBudget` | autoprofutils/PSF.py:86-88 | With more than ten stars, a cut past every deformity keeps enough stars, so the loop ends. |
| `Psf.Raises` | autoprofutils/PSF.py:86-88 | The loop ends at the first number of raises, from where it starts, whose cut keeps enough stars. |
| `Psf.RaiseClip` | autoprofutils/PSF.py:86-88 | The while loop makes exactly that number of raises. |
| `Psf.Kept` | autoprofutils/PSF.py:125 | The kept FWHMs are as many as the stars passing the cut. Each is the FWHM of a star passing the cut, and every passing star's FWHM is among them. |
| `Psf.KeptAppend` | autoprofutils/PSF.py:125 | Keeping the stars of a concatenation keeps those of each part, in order, so the kept FWHMs follow the order of the stars. |
| `Psf.PsfStarFind` | autoprofutils/PSF.py:67-127 | A user PSF is returned as is. Otherwise the step fails exactly when the guess does, and returns the guess with no cut exactly when at most ten stars are found. Else the cut is the first multiple of 0.1 keeping `max(10, 2n/3)` stars, at least ten are kept, and the PSF lies between their least and greatest FWHM. |

## Left out

- Image I/O, logging, plotting (all `ap_doplot` and `ap_paperplots` branches) and the file write itself are left out. The axial profile file is modelled as its list of lines.
- The numerical routines listed above are parameters. The model assumes of them only:
  - the ellipse sampler returns at least three samples;
  - the FFT amplitude is non-negative;
  - the background noise is positive;
  - the line sampler returns as many fluxes as positions;
  - the ellipticity transform lands in [0, 1);
  - the smoothers return one value per radius;
  - the square root is non-negative and zero only at zero;
  - a median lies between the least and greatest value;
  - the number formatter emits no comma;
  - cosine and sine change sign under a half turn.
- Randomness is a parameter. The model says nothing about the distribution of the draws or the shuffle, only that a shuffle reorders indices in range.
- Floating point is modelled as exact real arithmetic. `Pi` and `Ln10` are the exact binary64 values numpy uses. Rounding in the growth of the radii, the deformity cut and the unit conversions is not modelled.
- NaN and infinity inside the losses are modelled as values of `LossVal` ordered as np.argmin orders them.
- Loss.FitLoss: the robust loss treats every non-finite sample as NaN and returns NaN for it. That is numpy's behaviour for a NaN sample, which the quantile, the clip and the FFT all propagate. An infinite sample is not modelled: `np.clip` lowers a +inf sample to the 0.85 quantile when that quantile is finite, leaving the loss finite, and it leaves a -inf sample unclipped (there is no lower bound), so the FFT can make the loss infinite or NaN. The mean loss's `np.isfinite` test covers NaN and both infinities, as modelled.
- Radii.InitRadii: requires a positive PSF width and growth rate. Otherwise the source's radius loop need not terminate.
- IsophoteFit.FitIsophotes: requires the initial ellipticity in [0, 1) and a positive noise (through the loss environment). An ellipticity of 1 or more leaves the ellipticity domain, and a noise of zero lets the Fourier term divide by zero on a dark isophote.
- IsophoteFit.FitIsophotes: requires a non-negative regulariser weight, as `Loss.FitLoss`, `Loss.Weighted` and `Loss.Compose` do. The source reads the weight unchecked (Isophote_Fit.py:136) and accepts a negative one. Such a weight would reward differences from the neighbours and could make the loss negative. It is excluded so that every loss that is a number is non-negative and never below its Fourier term, as `Loss.FitLoss` and `Loss.Compose` state.
- IsophoteFit.FitIsophotes: the fit limit is reported as a number rather than the formatted `fit limit semi-major axis` string.
- AxialProfiles.ProfileLimit: requires a non-zero pixel scale when a photometry profile is given. At zero the source either raises on the division or gets an infinite limit, and then its grid loop (Axial_Profiles.py:26) never ends.
- AxialProfiles.AxialProfile: requires a non-zero pixel scale when a photometry profile is given, for the same reason.
- ForcedProfile.ForcedFit: requires a non-zero pixel scale. The source would divide by zero there, which numpy turns into infinities.
- ForcedProfile.FromTable: requires a non-zero pixel scale, for the same reason.
- The forced profile's angle-convention shift is a parameter, and float parsing is a parameter returning `None` for a non-number. Lines are the file's lines as read, so a line is empty only if the list itself holds an empty string.
- Psf.PsfStarFind: states that the PSF lies between the least and greatest kept FWHM rather than that it is their median, because the median is a parameter.
- Psf.PsfStarFind: the deformities are assumed finite, since a NaN deformity never passes the cut and the source loop could run forever. The cut is the exact multiple `0.1 * (k + 1)`, not the float sum of tenths.
- `Photutils_Fit` and `PSF_IRAF`, the other fitter and PSF routines in the same files, are not part of this model.
