# A model of astrolol's core algorithms and protocols

astrolol drives telescopes: mounts, cameras, guiders and their companions behind one server. This
project models the parts of it that are algorithms or small protocols rather than plumbing, and proves
what they are for.

| part | modules |
|---|---|
| streamed preview builder and its cache | Grids, PreviewFrame, PreviewBins, PreviewLoad, PreviewCache |
| auto-stretch | Reals, Rounding, Stretch |
| INDI sexagesimal numbers | Text, Sexagesimal |
| hand-nudge leases, mount automation guards | NudgeLease, MountAutomation |
| guiding-health tracker | Lists, GuidingHealth |
| access rules | AccessRules |
| guide-star selection | GuideStars |
| INDI property mirror | IndiMessages, IndiMirror, IndiClient |
| plugin closure | PluginClosure, PluginOrder |
| frame delivery, event bus | FrameStream, EventBus |
| equipment tree | OpticalPaths |

`dafny verify dfyconfig.toml` checks the whole project.

How the code is rendered: loops that update variables are methods with loops, objects whose methods
update fields are classes, and each such method is proved against a function on values (`Describes`,
`Next`, `Created`, `Offered`, `Turn`, ...); the theorems are about those functions and about whole runs
of them. The code between two awaits is one atomic step, `asyncio.Lock` is first-in first-out, clocks
are parameters. Floating-point numbers are `real`; a numpy slice `a[o::s]` is `Grids.Stride`.

Where the code and its own documentation disagree, the model follows the code:

- `preview.py` promises the smallest factor that brings the longest side under the target size. The factor k
  always brings it under, and it is the smallest if and only if it is 1 or (k - 1) * (target + 1) <= longest
  side; for a Bayer frame the allowed factors are even and k - 2 takes the place of k - 1
  (`PreviewFrame.BinFactorIsLeastFitIff`). Sizes where it is not: `PreviewFrame.BinFactorNotLeastFit`.
- The module text of `auth.py` gives GET and HEAD to viewers when no rule matches and everything else to
  operators; the code gives OPTIONS to viewers too (`AccessRules.UncoveredLevel`, and with the default rules
  `AccessRules.DefaultOptions`).
- `resolve_enabled_plugins` promises to preserve the original order. It does if and only if, for any two
  enabled ids, the earlier one is first pulled in by an earlier id of the list than the later one is, or both
  first by the same id, whose own expansion lists them in that order (`PluginOrder.OrderKeptIff`). Two lists
  that lose it: `PluginOrder.OrderLost`.

Properties that hold only under a condition, with the condition:

- Reprinting a parsed sexagesimal number repeats the text if and only if the value is not below zero by at
  most half the last printed unit (`Sexagesimal.Reprint`, `Sexagesimal.NegativeZeroExample`).
- The rendered sky background is exactly the target if and only if the midtone is outside the identity
  zone around 0.5; inside, it misses by less than 2e-6 (`Stretch.RenderedBackground`).
- A bounded subscriber's stream is complete if and only if its drop counter is zero (`EventBus.LossIsCounted`).
- A plugin goes live in one pass of `sync_enabled_plugins` if and only if it is discovered, hot-reloadable and
  working, and each requirement is live already or goes live earlier in the same pass
  (`PluginClosure.SyncActivates`). What a plugin pulls in stands behind it, so enabling both at once takes two
  passes (`PluginClosure.TwoPassesExample`).
- A sample below -0.5 h lies strictly between any two automatic flips of any run if and only if the flip
  threshold is at least -0.5 h (`MountAutomation.FlipsApartIff`). With a lower one the second flip's own sample may
  be the only one below -0.5 h: two samples in a row trigger if and only if the second is below -0.5 h, not below
  the threshold, and no flip is known to be undue (`MountAutomation.ConsecutiveFlips`).

## Model

| member | source | states |
|---|---|---|
| Grids.StrideAppend | astrolol/imaging/preview.py:237-244 | A strided slice of two pieces is the slice of the first followed by the slice of the second, taken from the phase at which the stride re-enters. |
| Grids.SiteAt | astrolol/imaging/preview.py:237 | Site i holds exactly the pixels whose row parity is i // 2 and column parity i % 2. |
| Grids.SitesPartition | astrolol/imaging/preview.py:233-241 | The four parity sites of any frame or strip, odd last rows and columns included, hold every pixel exactly once. |
| Grids.SampleAppend | astrolol/imaging/preview.py:242-244 | The strided sample of a frame is the concatenation of what its strips contribute, for every strip start. |
| PreviewFrame.BinFactorLeast | astrolol/imaging/preview.py:107-111 | The factor is the least one (least even one for Bayer frames) with longest side <= factor * target. |
| PreviewFrame.BinFactorIsLeastFitIff | astrolol/imaging/preview.py:107-111 | The factor brings the binned side under the target, and no smaller allowed factor does if and only if it is the least allowed one or the next smaller one times (target + 1) is at most the longest side; mono and Bayer. |
| PreviewFrame.BinFactorNotLeastFit | astrolol/imaging/preview.py:107-111 | Two sizes where a smaller factor fits: 4001 under 2000, and 100 under 1, where 100 is taken and 51 is the least. |
| PreviewFrame.BayerPatternPermutes | astrolol/imaging/preview.py:114-128 | Shifting a valid BAYERPAT by any offsets gives a valid pattern. |
| PreviewFrame.BayerPatternNamesCells | astrolol/imaging/preview.py:114-128 | The shifted pattern names, by row and column parity, the colour the header gives to every cell of the array. |
| PreviewFrame.HistogramAppend | astrolol/imaging/preview.py:231-243 | The histogram of a frame is the sum of the histograms of its parts. |
| PreviewFrame.HistogramTotal | astrolol/imaging/preview.py:216-243 | When every physical value lies in [0, full scale] the histogram counts width * height pixels. |
| PreviewFrame.SampleStep | astrolol/imaging/preview.py:218-219 | The mono sample's stride s is odd, and width * height lies between (s - 1)^2 and (s + 1)^2 times the sample target. |
| PreviewFrame.SampleSize | astrolol/imaging/preview.py:242-244 | The sample holds one pixel of every stride x stride block, cut off blocks at the edges included. |
| PreviewFrame.ChannelHistogramsAddUp | astrolol/imaging/preview.py:233-259 | The three channel histograms of a Bayer frame add up to the histogram of all its pixels, for every pattern. |
| PreviewFrame.ChannelSampleAppend | astrolol/imaging/preview.py:234-241 | Each channel's samples over two consecutive pieces are, as a multiset, the strided site planes of the whole. |
| PreviewBins.StripRows | astrolol/imaging/preview.py:157-178 | The rows a strip contributes, debayered or block-averaged, are the rows read off the whole frame. |
| PreviewBins.DebayerExact | astrolol/imaging/preview.py:157-169 | Each output channel is the mean of exactly the block's pixels of that colour, counted cell by cell from the header; green over both green sites. |
| PreviewLoad.StripWrites | astrolol/imaging/preview.py:247-255 | Consecutive strips write consecutive, disjoint runs of output rows. |
| PreviewLoad.EachRowWrittenOnce | astrolol/imaging/preview.py:247-255 | Each of the height // k output rows is written by exactly one strip, the one that holds its first frame row. |
| PreviewLoad.DataMax | astrolol/imaging/preview.py:210-215 | The extra pass returns the largest physical value of the frame. |
| PreviewLoad.AddSites | astrolol/imaging/preview.py:233-241 | The pass over the four sites adds exactly the strip's channel histograms and its share of the channel samples. |
| PreviewLoad.MeasureStrip | astrolol/imaging/preview.py:231-246 | After a strip, sum, histogram, saturated count and samples are those of all rows read so far. |
| PreviewLoad.WriteRows | astrolol/imaging/preview.py:251-255 | The slice assignment replaces exactly the rows of the strip in place. |
| PreviewLoad.BinStrip | astrolol/imaging/preview.py:247-255 | A strip writes in place exactly its complete block rows and leaves the other rows alone. |
| PreviewLoad.ReadStrips | astrolol/imaging/preview.py:231-261 | The loop over strips, of any height, ends with the binned rows and the statistics of the whole frame. |
| PreviewLoad.LoadPreviewBase | astrolol/imaging/preview.py:181-277 | An empty image is an error; otherwise the result is described by the whole frame alone: k x k block means, mean, histograms, saturation, samples, full scale. |
| PreviewLoad.StripHeightIrrelevant | astrolol/imaging/preview.py:181-277 | Any two strip heights give the same image, histograms, mean, saturation and mono sample, and the same channel samples as multisets. |
| PreviewLoad.BaseHistogramTotal | astrolol/imaging/preview.py:181-277 | A base whose physical values lie in [0, full scale] counts every pixel of the frame in its histogram. |
| PreviewCache.PreviewBaseCache.LookUp | astrolol/imaging/preview.py:293-300 | A hit, exactly for the capacity most recently used keys, returns the base of that key's file and counts as a use; a miss changes nothing. |
| PreviewCache.PreviewBaseCache.Store | astrolol/imaging/preview.py:301-307 | After storing, the cache holds the capacity most recently used keys, whatever other loads did between the two locked sections. |
| PreviewCache.UseKeepsLast | astrolol/imaging/preview.py:287-307 | Moving a used key to the end and evicting from the front keeps exactly the most recently used distinct keys. |
| Stretch.MtfSelfInverse | astrolol/imaging/preview.py:344-350 | MTF(MTF(t, x), x) = t on (0, 1). |
| Stretch.MtfMidpoint | astrolol/imaging/preview.py:344-350 | The midtone itself maps to one half. |
| Stretch.MtfMonotone | astrolol/imaging/preview.py:344-350 | The curve is monotone, strictly inside [0, 1], with values in [0, 1]. |
| Stretch.ParamsInRange | astrolol/imaging/preview.py:357-373 | Black lies in [0, white], the midtone in (0, 1/2], below 1/2 exactly when one was solved for. |
| Stretch.HitsTarget | astrolol/imaging/preview.py:357-373 | Whenever a midtone is solved for, the curve sends the sky median exactly to the target background. |
| Stretch.LevelOrdered | astrolol/imaging/preview.py:310-336 | Rendered levels lie in 0..255 and keep the order of the values; black and below give 0, white and above 255. |
| Stretch.IdentityShortcut | astrolol/imaging/preview.py:310-336 | Skipping the curve for a midtone within 1e-6 of 0.5 moves a level by less than 2e-6. |
| Stretch.RenderedBackground | astrolol/imaging/preview.py:310-373 | The rendered background equals the target if and only if the midtone is outside the identity zone, and is within 2e-6 of it always. |
| Text.PyFloatWithExponent | astrolol/_vendor/indipyclient/propertymembers.py:50-58 | A numeral with an exponent reads as its sign, its mantissa, times that power of ten; and not at all if the mantissa does not read. |
| Sexagesimal.CarriedClose | astrolol/_vendor/indipyclient/propertymembers.py:242-335 | After carries minutes and seconds are below 60, and the fields denote a number within half the last computed unit. |
| Sexagesimal.CarriedOfDenoted | astrolol/_vendor/indipyclient/propertymembers.py:242-335 | Splitting a printed number again finds the printed fields. |
| Sexagesimal.SignedParses | astrolol/_vendor/indipyclient/propertymembers.py:14-58 | Parsing a printed text, padded to any width, gives exactly the number the text denotes. |
| Sexagesimal.RoundTrip | astrolol/_vendor/indipyclient/propertymembers.py:14-335 | For every value, sign, width and fraction code the printer accepts, printing succeeds and parsing the text gives a number within half the last unit. |
| Sexagesimal.PrintsZero | astrolol/_vendor/indipyclient/propertymembers.py:242-335 | A magnitude prints as zero if and only if it is at most half the last unit. |
| Sexagesimal.Reprint | astrolol/_vendor/indipyclient/propertymembers.py:14-335 | Reprinting the parsed number gives the same text if and only if the value is not below zero by at most half the last unit. |
| Sexagesimal.NegativeZeroExample | astrolol/_vendor/indipyclient/propertymembers.py:242-335 | A value just below zero prints with a sign that a reprint drops. |
| NudgeLease.StepInv | astrolol/mount/manager.py:278-318 | Each atomic step keeps: exactly the registered lease is pending, once; a moving mount has a lease or was started open-ended; the motions mirror the commands sent. |
| NudgeLease.RunInv | astrolol/mount/manager.py:278-318 | Every interleaving of starts, renewals, stops and expiries keeps that invariant. |
| NudgeLease.AtMostOneLease | astrolol/mount/manager.py:278-318 | In every reachable state at most one lease is pending, and a motion has one or was last started without a duration. |
| NudgeLease.RenewalCancelsOldLease | astrolol/mount/manager.py:278-310 | A start that finishes leaves no older lease asleep or queued for the lock, so an expired lease behind a renewal is cancelled. |
| NudgeLease.StartCallsDriver | astrolol/mount/manager.py:278-296 | A start calls the driver exactly when the commands sent since the last stop do not already amount to it. |
| NudgeLease.StartAfterStop | astrolol/mount/manager.py:278-318 | A start that comes after a stop, the lease's or the user's, calls the driver again. |
| NudgeLease.InternalStepsEnd | astrolol/mount/manager.py:278-318 | Without new calls every step consumes work, so the protocol comes to rest. |
| NudgeLease.NudgeEnds | astrolol/mount/manager.py:278-318 | At rest, a mount still moving was last started without a duration. |
| MountAutomation.FlipDueOnOneSide | astrolol/mount/manager.py:55-67 | A flip is due on exactly one of the two pier sides, whatever whole days are added to the hour angle. |
| MountAutomation.AutomationGuards.CheckHorizon | astrolol/mount/manager.py:418-443 | One horizon check changes the guard and acts as the state machine says. |
| MountAutomation.AutomationGuards.CheckFlip | astrolol/mount/manager.py:539-562 | One flip check changes the guard and triggers as the state machine says. |
| MountAutomation.AutomationGuards.EnterSuspension | astrolol/mount/manager.py:453-463 | Entering a suspend context raises the depth by one. |
| MountAutomation.AutomationGuards.LeaveSuspension | astrolol/mount/manager.py:464-471 | Leaving one lowers it, and the last one removes it. |
| MountAutomation.HorizonHysteresis | astrolol/mount/manager.py:418-443 | Between two horizon actions of any run some sample rose to the limit plus one degree or more. |
| MountAutomation.HorizonActionOnlyBelowLimit | astrolol/mount/manager.py:418-443 | The action is taken only below the limit, for a tracking, unparked, idle mount with an action configured, and is the configured one. |
| MountAutomation.FlipHysteresis | astrolol/mount/manager.py:539-562 | Between two automatic flip triggers, up to the second one's own sample, some sample had hour angle below -0.5 h. |
| MountAutomation.FlipHysteresisStrict | astrolol/mount/manager.py:539-562 | With a threshold of at least -0.5 h that sample lies strictly between the two. |
| MountAutomation.ConsecutiveFlips | astrolol/mount/manager.py:539-562 | The step after a trigger triggers again if and only if its own sample lies below -0.5 h and not below its threshold, with a flip not known to be undue. |
| MountAutomation.ConsecutiveFlipsExample | astrolol/mount/manager.py:539-562 | With any threshold below -0.5 h, two samples in a row at the threshold both trigger. |
| MountAutomation.FlipsApartIff | astrolol/mount/manager.py:539-562 | A threshold keeps any two triggers of any run apart by a sample below -0.5 h strictly between them if and only if it is at least -0.5 h. |
| MountAutomation.DepthIsOpen | astrolol/mount/manager.py:453-471 | The stored depth is the number of open suspend contexts, released in any order. |
| MountAutomation.NoFlipWhileSuspended | astrolol/mount/manager.py:539-562 | No trigger is taken while any suspend context is open, below the threshold, or when the mount is on its normal side. |
| MountAutomation.FlipTriggersWhenArmed | astrolol/mount/manager.py:539-562 | After a sample east of the meridian the first eligible sample with no context open triggers. |
| GuidingHealth.GuidingHealthTracker.OnStep | astrolol/core/guiding/health.py:44-56 | A step closes the open gap, if any, and reports a start exactly then. |
| GuidingHealth.GuidingHealthTracker.OnLost | astrolol/core/guiding/health.py:58-69 | A loss opens a gap unless one is open, and reports an interruption exactly then. |
| GuidingHealth.GuidingHealthTracker.CurrentHealth | astrolol/core/guiding/health.py:80-89 | The guiding branch always finds the start time set; the result is that of the gap list. |
| GuidingHealth.GuidingHealthTracker.WindowStats | astrolol/core/guiding/health.py:91-118 | The loop's sums over steps and gaps are those of the value model. |
| GuidingHealth.KeepsRecentGaps | astrolol/core/guiding/health.py:34-69 | The bounded deque holds exactly the most recent gaps of the whole log, and the open one is among them. |
| GuidingHealth.TrackerInvariant | astrolol/core/guiding/health.py:34-89 | In every run, evictions included, gaps are ordered and disjoint, only the last can be open, and the start time is set exactly when guiding. |
| GuidingHealth.HealthMatchesLog | astrolol/core/guiding/health.py:80-89 | The reported health is since when, and why, the log has been guided or not. |
| GuidingHealth.GapsRefineLog | astrolol/core/guiding/health.py:44-119 | The gap list gives exactly the unguided time and losses of replaying the log in any window. |
| GuidingHealth.StatsRefineLog | astrolol/core/guiding/health.py:91-119 | Without eviction a window's unguided time, losses and step count are those of the replayed log. |
| GuidingHealth.StatsAfterEviction | astrolol/core/guiding/health.py:91-119 | With eviction, windows that begin after the evicted gaps ended are still exact. |
| GuidingHealth.UnguidedWithinWindow | astrolol/core/guiding/health.py:91-119 | A window is never unguided for longer than it lasts, by the tracker's own gap list after any evictions as well as by the unbounded one. |
| GuidingHealth.WindowsAddUp | astrolol/core/guiding/health.py:91-119 | Adjacent windows add up: unguided time exactly, losses up to those starting exactly on the cut. |
| AccessRules.CompileBody | astrolol/core/auth.py:108-120 | The index loop emits the pieces of the pattern's characters, two stars before one. |
| AccessRules.Compile | astrolol/core/auth.py:104-120 | The compiled pieces, with the recursion on a trailing subtree. |
| AccessRules.TailIsSuffix | astrolol/core/auth.py:106-107 | On compiled patterns, dropping the last two pieces is what removesuffix does to the regex text. |
| AccessRules.CompilationPreservesMeaning | astrolol/core/auth.py:104-120 | For every pattern and newline-free path the compiled regex matches if and only if the glob does. |
| AccessRules.Acl.AddDefault | astrolol/core/auth.py:130-131 | Default rules are appended after all others. |
| AccessRules.Acl.AddPlugin | astrolol/core/auth.py:133-134 | Plugin rules are appended to the plugin rules, compiled. |
| AccessRules.Acl.Lookup | astrolol/core/auth.py:136-145 | The nested loops return the verdict of the first covering rule, plugin rules first. |
| AccessRules.FirstMatchWins | astrolol/core/auth.py:136-145 | On newline-free paths the first rule whose method and glob apply decides; with none, the method alone. |
| AccessRules.LiteralGlob | astrolol/core/auth.py:104-120 | A pattern without stars spells itself and nothing else. |
| AccessRules.DefaultAcl | astrolol/core/auth.py:151-170 | The default list holds exactly the default rules, in order. |
| AccessRules.DefaultWritesNeedOperator | astrolol/core/auth.py:136-170 | With the default rules a request is public if and only if it is for /health or /auth and below, and every other write needs at least an operator. |
| AccessRules.UncoveredLevel | astrolol/core/auth.py:136-145 | When no rule applies, the viewer level suffices exactly for GET, HEAD and OPTIONS. |
| AccessRules.DefaultOptions | astrolol/core/auth.py:136-170 | With the default rules OPTIONS is public on the open paths, needs an admin for /admin and below, and a viewer everywhere else. |
| GuideStars.SortedOrders | astrolol/imaging/stars.py:230 | The sort loses and invents nothing and puts the best first. |
| GuideStars.SortedStable | astrolol/imaging/stars.py:230 | Stars with equal keys keep their order. |
| GuideStars.SelectGuideStars | astrolol/imaging/stars.py:187-247 | The whole selection, in the source's steps, is the selection function below. |
| GuideStars.KeepOld | astrolol/imaging/stars.py:237-245 | The matching loop is the fold over the old stars. |
| GuideStars.ChosenApart | astrolol/imaging/stars.py:215-247 | The chosen stars are different detected stars, pairwise at least the separation apart, even with a crowded pick. |
| GuideStars.PickLeads | astrolol/imaging/stars.py:231-247 | A pick within three keep radii is always first. |
| GuideStars.OldStarsLead | astrolol/imaging/stars.py:231-247 | With or without a preferred position: when the separation exceeds two keep radii and every old star moved at most one and is still usable, the pick comes first if there is one, then the moved old stars other than it, in their old order. |
| GuideStars.CompanionsBestFirst | astrolol/imaging/stars.py:230-247 | The selection is the kept stars and then all other usable stars, each usable star once and the others best first; a pick, even a crowded or clipped one, is the first of the kept and none of the others. |
| IndiMessages.ReadMembers | astrolol/_vendor/indipyclient/events.py:216-237 | The loop over child elements gives the member map, or nothing at the first malformed child. |
| IndiMessages.MembersAreLast | astrolol/_vendor/indipyclient/events.py:604-622 | Each member carries the last value the message gives it. |
| IndiMessages.ReadDefinition | astrolol/_vendor/indipyclient/events.py:166-237 | What a definition message is read as; every validation failure is a parse error. |
| IndiMessages.ReadUpdate | astrolol/_vendor/indipyclient/events.py:489-626 | What a set message is read as; every validation failure is a parse error. |
| IndiMirror.EnabledIsReplay | astrolol/_vendor/indipyclient/events.py:127-162 | After any run a vector is enabled if and only if the last sound definition or delete that names it was a definition. |
| IndiMirror.MembersAreReplay | astrolol/_vendor/indipyclient/events.py:489-626 | After any run each member holds the last value an accepted definition or set gave it; redefinition merges members. |
| IndiMirror.RejectedSetChangesNothing | astrolol/_vendor/indipyclient/events.py:489-513 | A set that is malformed, or for an unknown or deleted vector, changes nothing. |
| IndiMirror.TimeoutsPerSend | astrolol/_vendor/indipyclient/propertyvectors.py:210-229 | Over any run a vector reports at most one timeout per send. |
| IndiMirror.NoTimeoutOnceAnswered | astrolol/_vendor/indipyclient/propertyvectors.py:210-273 | Once a set or definition was accepted, no timeout is reported until the next send. |
| IndiMirror.TimeoutIsLate | astrolol/_vendor/indipyclient/propertyvectors.py:210-229 | A timeout is reported only later than the last send plus the vector's timeout, pushed into the client's limits, and so, with limits in order, never within the least timeout after the send. |
| IndiMirror.UnansweredIsReported | astrolol/_vendor/indipyclient/propertyvectors.py:210-229 | For a send with no answer yet, a check of the enabled vector reports if and only if timeouts are on and it comes later than that. |
| IndiClient.PropertyVector.Define | astrolol/_vendor/indipyclient/propertyvectors.py:686-723 | A redefinition merges members, enables the vector and, except for lights, stops the timer. |
| IndiClient.PropertyVector.Update | astrolol/_vendor/indipyclient/propertyvectors.py:253-273 | An update of an enabled vector sets known members only and stops the timer; a deleted one ignores it. |
| IndiClient.PropertyVector.CheckTimedOut | astrolol/_vendor/indipyclient/propertyvectors.py:210-229 | The clamped timeout decides; reporting stops the timer. |
| IndiClient.PropertyVector.SendNew | astrolol/_vendor/indipyclient/propertyvectors.py:758-772 | A send of an enabled vector sets it busy and starts the timer; a deleted one sends nothing. |
| IndiClient.Device.Enable | astrolol/_vendor/indipyclient/ipyclient.py:1032-1038 | True if and only if some vector is enabled. |
| IndiClient.Device.DelProperty | astrolol/_vendor/indipyclient/events.py:134-162 | A delete disables the named vector, or all of them; on a deleted device it is a parse error. |
| IndiClient.Device.Def | astrolol/_vendor/indipyclient/events.py:363-381 | A sound definition updates the named vector or creates it; a new one with a malformed number is a parse error and leaves no vector. |
| IndiClient.Device.Set | astrolol/_vendor/indipyclient/events.py:489-513 | A sound set of an enabled vector updates it; any other is a parse error. |
| IndiClient.Device.RxVector | astrolol/_vendor/indipyclient/ipyclient.py:1131-1181 | Dispatch by tag; a rejected message leaves the device as it was. |
| IndiClient.Client.RxHandler | astrolol/_vendor/indipyclient/ipyclient.py:679-713 | A message changes only its own device; an unknown device appears only with an accepted definition. |
| IndiClient.Client.SendNew | astrolol/_vendor/indipyclient/propertyvectors.py:758-772 | A send touches only its own vector. |
| IndiClient.Client.CheckAlive | astrolol/_vendor/indipyclient/ipyclient.py:549-557 | The vectors reported are exactly the enabled ones that time out, and only their timers change. |
| PluginClosure.Resolver.Add | astrolol/app.py:93-103 | The nested recursive function, with the two variables it updates, ends on cyclic requirements and appends what the closure function says. |
| PluginClosure.ResolveEnabledPlugins | astrolol/app.py:80-108 | The resolved list is that of the closure function. |
| PluginClosure.ResolvedIsClosure | astrolol/app.py:80-108 | Without repeats, the list holds exactly the enabled ids and what they reach through discovered plugins. |
| PluginClosure.ResolvedTwice | astrolol/api/settings.py:34-35 | Resolving a resolved list gives the same list, order included. |
| PluginOrder.PullersDecide | astrolol/app.py:93-108 | Any two resolved plugins stand in the order of their first pullers, and with the same first puller as in that id's own expansion. |
| PluginOrder.AddedAllIsReach | astrolol/app.py:93-108 | Whatever is resolved before, resolving more ids adds exactly what one of them reaches along a chain that avoids it. |
| PluginOrder.PullerReaches | astrolol/app.py:93-108 | Whatever is resolved before, the first puller of a plugin is the least m such that one of the first m + 1 ids reaches it along a chain that avoids it. |
| PluginOrder.ReachedFromNothing | astrolol/app.py:93-108 | With nothing resolved before, such a chain exists if and only if one of the ids reaches the plugin at all. |
| PluginOrder.ExpansionUnfolds | astrolol/app.py:93-103 | An id's expansion is the id and then its discovered requirements, resolved like a list of enabled ids. |
| PluginOrder.OrderKeptIff | astrolol/app.py:80-108 | The enabled ids keep their order if and only if they are pulled in in their order. |
| PluginOrder.OrderKeptWhenNonePulled | astrolol/app.py:80-108 | They do when no enabled id is reached from an earlier one. |
| PluginOrder.OrderLost | astrolol/app.py:80-108 | Whether the first of three ids requires [c] or [c, b], the other two change places. |
| PluginClosure.AppState.SyncEnabledPlugins | astrolol/app.py:159-200 | The activation loop, with setups that may fail, gives the live set of the activation function. |
| PluginClosure.SyncKeepsLive | astrolol/app.py:159-200 | Nothing live is removed, only working hot-reloadable discovered targets are added, and a requires-closed live set stays closed. |
| PluginClosure.SyncActivates | astrolol/app.py:180-200 | A target not live yet goes live if and only if it is discovered, hot-reloadable and working, and each requirement is live already or stands earlier in the list and goes live itself. |
| PluginClosure.RequirerWaits | astrolol/app.py:180-200 | In particular a target listed before a requirement that is not live yet stays off in this pass. |
| PluginClosure.TwoPassesExample | astrolol/app.py:180-200 | A plugin enabled with its only requirement waits, and the next pass switches it on. |
| FrameStream.RunInv | astrolol/devices/base/streaming.py:73-116 | Every run keeps the subscription's invariant: accounting, latest frame pending or delivered, nobody blocked beside a frame or the end. |
| FrameStream.Conservation | astrolol/devices/base/streaming.py:84-91 | Until the end, frames published = delivered + dropped + pending. |
| FrameStream.DeliveredFrames | astrolol/devices/base/streaming.py:99-116 | The frames handed out are the accepted frames at strictly rising positions. |
| FrameStream.DeliveredIncreasing | astrolol/devices/base/streaming.py:99-116 | Delivered sequence numbers strictly increase when published ones do. |
| FrameStream.AfterTheEnd | astrolol/devices/base/streaming.py:93-116 | After the end nothing is delivered but a frame that was already pending. |
| FrameStream.EndedReadersLeave | astrolol/devices/base/streaming.py:93-116 | After the end no reader is blocked, and each turn returns the pending frame or raises with the cause the stream ended with. |
| FrameStream.NoLostWakeUp | astrolol/devices/base/streaming.py:84-116 | In every run, no reader is blocked while a frame is pending or the stream is closed. |
| FrameStream.FrameSubscription.PutFrame | astrolol/devices/base/streaming.py:84-90 | A put replaces the pending frame, counts the drop and wakes every waiting reader; after the end it is ignored. |
| FrameStream.FrameSubscription.EndWith | astrolol/devices/base/streaming.py:92-97 | The first end sticks and wakes every waiting reader. |
| FrameStream.FrameSubscription.GetTurn | astrolol/devices/base/streaming.py:103-116 | One turn of a reader between two awaits. |
| FrameStream.FrameSubscription.Close | astrolol/devices/base/streaming.py:118-121 | Closing ends the subscription and takes it off the broadcaster, whose invariant over all subscriptions ever made is kept. |
| FrameStream.FrameBroadcaster.Subscribe | astrolol/devices/base/streaming.py:152-155 | A new subscription is empty and joins the set. |
| FrameStream.FrameBroadcaster.Publish | astrolol/devices/base/streaming.py:157-159 | Every subscription, and nothing else, gets the frame. |
| FrameStream.FrameBroadcaster.End | astrolol/devices/base/streaming.py:161-165 | Every subscription ends with the cause, and the set is emptied. |
| FrameStream.FrameBroadcaster.SubscriptionView | astrolol/devices/base/streaming.py:146-165 | At every moment the frames a subscription accepted are those published from its start until it ended, and each is delivered, dropped or pending. |
| EventBus.OfferedInv | astrolol/core/events/bus.py:50-60 | Offering an event, dropping the oldest of a full queue, keeps the queue a suffix of what was published and the accounting exact. |
| EventBus.ConsumedReceives | astrolol/core/events/bus.py:36-40 | A consumer gets the events of its queue in publication order. |
| EventBus.UnboundedLosesNothing | astrolol/core/events/bus.py:21-60 | What an unbounded subscriber got and what waits is exactly what was published. |
| EventBus.LossIsCounted | astrolol/core/events/bus.py:50-60 | A subscriber's stream is complete if and only if its drop counter is zero. |
| Lists.SuffixAppend | astrolol/core/events/bus.py:50-52 | A bounded deque holds exactly the last elements ever appended. |
| EventBus.EventBus.Subscribe | astrolol/core/events/bus.py:36-40 | A new queue is empty and joins the subscribers; the bus invariant is kept. |
| EventBus.EventBus.Unsubscribe | astrolol/core/events/bus.py:42-48 | The queue and its counter go; the total of all drops stays. |
| EventBus.EventBus.Publish | astrolol/core/events/bus.py:50-60 | Every subscriber is offered the event; history is the last 10,000 events and the total is the sum of drops over all subscribers ever. |
| EventBus.EventBus.SubscriberView | astrolol/core/events/bus.py:30-64 | At every moment a subscriber's queue is a suffix of the published events, and those since it joined are consumed, queued or dropped. |
| EventBus.EventBus.GetHistory | astrolol/core/events/bus.py:62-64 | The history returned is exactly the last 10,000 events published. |
| OpticalPaths.WalkOpticalPaths | astrolol/equipment/optical_path.py:122-187 | The recursive walk with its local result list is the walk function. |
| OpticalPaths.WalkFindsClosest | astrolol/equipment/optical_path.py:122-198 | One path per camera in preorder, each role the closest ancestor of that type through dangling nodes, the flat panel the first among the closest OTA's children. |
| OpticalPaths.WalkMountSites | astrolol/equipment/optical_path.py:201-227 | The recursive mount walk is its function. |
| OpticalPaths.MountsFindClosest | astrolol/equipment/optical_path.py:201-227 | One pair per mount in preorder, with the closest site above it. |
| OpticalPaths.PreorderListsChains | astrolol/equipment/optical_path.py:122-187 | The preorder list holds exactly the chains that lead from a root to a node. |
| OpticalPaths.FindProfileSite | astrolol/equipment/optical_path.py:263-275 | The worklist loop ends with the first site of the topmost level that has one. |
| OpticalPaths.FindsShallowestSite | astrolol/equipment/optical_path.py:263-275 | The search finds a site of least depth, and none only when the tree has none. |
| OpticalPaths.ClosestMountListed | astrolol/equipment/optical_path.py:201-227 | In any tree, every mount on a chain is listed with the site above it. |
| OpticalPaths.PathsAgree | astrolol/equipment/optical_path.py:122-275 | On dangling-free trees with one site root that obey VALID_CHILD_TYPES, each path has a mount, (mount, site) is in walk_mount_sites and the site is find_profile_site's. |

## Left out

- PreviewLoad.LoadPreviewBase: pixels come as a rectangular grid of numbers with the header cards the builder reads; FITS decoding and its errors (no image data, not two-dimensional), integer scaling in float32, JPEG writing and thread locking are library work, and rounding is not modelled because pixels are real numbers.
- Stretch.StretchFromSample: the sample's median and noise are inputs; numpy's medians and NaN handling are not modelled.
- PreviewCache.PreviewBaseCache.Store: a file is taken to be determined by its cache key (path, modification time, size, dimension), which is what the cache relies on.
- Text.PyFloat: infinities, NaN, underscores between digits and non-ASCII digits in numerals are read as malformed, so a set message whose number is spelled that way counts as rejected.
- Sexagesimal.GetFormattedString: only the sexagesimal branch; printf formats are a library call.
- NudgeLease.Step: a state machine on values rather than an object, since the methods suspend while they hold the lock; driver calls that fail, cancelled callers and the emergency stop, which does not clear the motions; one mount is modelled because all state is keyed by mount.
- MountAutomation.Next: stop_automation, auto-park and the slews a trigger starts; the busy flag is an input because other tasks set it between awaits.
- GuidingHealth.StatsOf: RMS square roots and the final rounding of the figures.
- AccessRules.CompilationPreservesMeaning: paths with a newline, on which `.` and `$` of the regex engine deviate from the glob; method names are upper-cased as ASCII.
- GuideStars.ChosenApart: one object listed twice among the detected stars; measuring stars is numerical work on pixels.
- IndiMirror.MembersAreReplay: runs in which a name changes its type or a known number is redefined with a malformed value, where the source can stop half-way; BLOB vectors and payloads, labels, groups, messages and item ids.
- IndiClient.PropertyVector.SendNew: the XML sent and the invalid timestamps for which nothing is sent.
- IndiClient.Client.CheckAlive: one atomic step, where the source awaits `rxevent` after each timeout it finds, so that messages and sends can come between two reports of one round; the rest of `_check_alive`, connection time-outs and idle requests.
- PluginClosure.AppState.SyncEnabledPlugins: whether a plugin's setup and startup succeed is an input; routers and log scopes.
- FrameStream.FrameSubscription.GetTurn: the async iterator protocol around get and tasks cancelled while they wait.
- OpticalPaths.WalkOpticalPaths: resolve_optical_paths' lookup of live device ids.
- Mutual exclusion of exposures, slews, parks and flips: idle checks and state changes are sometimes separated by awaits, so it is not claimed.
- FastAPI routers, middleware, websockets, settings and inventory stores, device adapters and the user interface: input, output and framework plumbing.
