# Portfolio site: filter, preloader and talk badges in Dafny

The portfolio site is mostly markup, animation calls and static content. This
project models its three small pieces of sequential logic as pure Dafny
functions over immutable values and proves their properties.

- **Projects section** (`projects.dfy`, module `Projects`). The filter
  buttons are `all` followed by every project tag, once each, in first-seen
  order. The grid shows the projects for the active filter: `all` shows every
  project, and a tag gives a stable filter. Each card shows at most four
  stack chips, plus a "+N more" chip when the stack is longer. The section
  state is `(filter, shown list)`. A click changes only the filter. The
  filter effect that runs after the render recomputes the list.
- **Preloader** (`preloader.dfy`, module `Preloader`). A timer tick adds
  `r * 7 + 1` to a counter and clamps it at 100, where `r` is the random draw
  in `[0, 1)`, passed in as a parameter. The label shows the floor of the
  counter. Reaching 100 clears the timer and queues an exit sequence. The last
  step of that sequence calls the optional completion callback. Unmounting
  clears the timer.
- **Talks section** (`talks.dfy`, module `Talks`). A talk's type is
  lower-cased and then mapped to a badge icon and a gradient class, with a
  default branch. The card links out only when the link is present, non-empty
  and not `#`.
- Shared vocabulary (`seqs.dfy`, module `Seqs`; `options.dfy`, module
  `Options`): duplicate-free sequences, subsequences, first occurrence, and
  de-duplication in JavaScript `Set` order. `Dedup` is proved equal to the
  unique list that is duplicate-free, has the same elements, and is ordered
  by first occurrence.

Preloader details:

- The increment drawn on each tick is `r * 7 + 1`, a number in `[1, 8)`.
- There is no cap on the number of ticks and no forced completion. None is
  needed: 100 ticks always reach 100.
- Unmounting clears only the interval. An exit sequence that is already
  queued is not cancelled, so its callback still runs.

## Model

| member | source | states |
|---|---|---|
| Seqs.Dedup | kushal-p/src/components/sections/Projects.tsx:20 | the tag set holds every tag once: duplicate-free, with exactly the elements of the input |
| Seqs.DedupCharacterized | kushal-p/src/components/sections/Projects.tsx:20 | a list is the `Set`-ordered de-duplication iff it is duplicate-free, has the input's elements, and follows the order of first occurrence |
| Seqs.FirstSeenUnique | kushal-p/src/components/sections/Projects.tsx:20 | two duplicate-free lists with the same elements, both in first-seen order, are equal |
| Seqs.IndexOf | kushal-p/src/components/sections/Projects.tsx:20 | the first position holding an element: it holds the element and no earlier position does |
| Projects.TagOccurrences | kushal-p/src/components/sections/Projects.tsx:20 | the flattened tag list contains a tag iff some project carries it |
| Projects.FilterOptions | kushal-p/src/components/sections/Projects.tsx:20-21 | the options start with `all`, followed by the used tags without duplicates, exactly the tags some project carries |
| Projects.FilterOptionsFirstSeen | kushal-p/src/components/sections/Projects.tsx:20-21 | the options after `all` are the only duplicate-free list of used tags in first-seen order |
| Projects.ComputeFilterOptions | kushal-p/src/components/sections/Projects.tsx:20-21 | one pass that inserts tags into a seen-set and keeps insertion order yields exactly the filter options |
| Projects.WithTag | kushal-p/src/components/sections/Projects.tsx:27-29 | filtering by a tag keeps exactly the projects carrying it, with every copy of each, as a subsequence of the source and no longer than it |
| Projects.Visible | kushal-p/src/components/sections/Projects.tsx:23-31 | `all` shows the source list unchanged; a tag shows exactly the projects carrying it, as a subsequence with full multiplicities |
| Projects.VisibleUnusedTag | kushal-p/src/components/sections/Projects.tsx:27-29 | a tag other than `all` that no project carries shows an empty grid |
| Projects.WithTagIdempotent | kushal-p/src/components/sections/Projects.tsx:27-29 | filtering the filtered list by the same tag changes nothing |
| Projects.VisibleIdempotent | kushal-p/src/components/sections/Projects.tsx:23-31 | applying the same filter to its own result gives the result again |
| Projects.Mount | kushal-p/src/components/sections/Projects.tsx:16-17 | at mount the filter is `all`, the shown list is the whole project list, and the two agree |
| Projects.Click | kushal-p/src/components/sections/Projects.tsx:118 | a click sets the filter to exactly the clicked option and leaves the list to the effect |
| Projects.RunEffect | kushal-p/src/components/sections/Projects.tsx:23-31 | after the effect the shown list is the one the filter prescribes, and the filter is unchanged |
| Projects.EffectIgnoresPreviousList | kushal-p/src/components/sections/Projects.tsx:23-31 | the list after the effect depends only on the project list and the filter, not on the list held before |
| Projects.MountEffectUnchanged | kushal-p/src/components/sections/Projects.tsx:16-31 | the effect's first run at mount leaves the initial state as it was |
| Projects.Select | kushal-p/src/components/sections/Projects.tsx:23-31 | after a click and its effect the filter is the option and the grid shows what that option prescribes |
| Projects.OneActiveOption | kushal-p/src/components/sections/Projects.tsx:119-123 | if no project uses the tag `all`, the options are duplicate-free, and a filter that is an option highlights exactly one button: some button is active, and any two active buttons are the same button |
| Projects.AllTagDoublesActive | kushal-p/src/components/sections/Projects.tsx:20-21 | a project tagged `all` makes that option appear twice, so two distinct buttons are highlighted under `all` |
| Projects.StackChips | kushal-p/src/components/sections/Projects.tsx:214-227 | a card shows the first min(4, stack length) entries in order; a "+N more" chip appears iff the stack is longer than 4, with N the number left over |
| Projects.SampleMl | kushal-p/src/components/sections/Projects.tsx:27-29 | on projects tagged ml, web, and both, filter `ml` shows ids 1 and 3 |
| Projects.SampleWeb | kushal-p/src/components/sections/Projects.tsx:27-29 | on the same projects, filter `web` shows ids 2 and 3 |
| Projects.SampleNone | kushal-p/src/components/sections/Projects.tsx:27-29 | on the same projects, an unused tag shows nothing |
| Projects.SampleOptions | kushal-p/src/components/sections/Projects.tsx:20-21 | on the same projects, the options are `all`, `ml`, `web` |
| Preloader.Start | kushal-p/src/components/Preloader.tsx:7-16 | the counter and the label start at 0, the timer runs, and nothing has completed |
| Preloader.Shown | kushal-p/src/components/Preloader.tsx:19 | the label is the integer part of the counter, within 0..100 |
| Preloader.Tick | kushal-p/src/components/Preloader.tsx:17-22 | a tick never lowers the counter and adds less than 8; while running below 100 it adds at least 1 or reaches exactly 100; reaching 100 clears the timer and queues the exit, while a tick that stays below 100 leaves the timer running and the exit unqueued; a cleared timer changes nothing; the invariant is kept |
| Preloader.FinishExit | kushal-p/src/components/Preloader.tsx:23-27 | the end of a running exit sequence marks it finished and calls the callback once if one was supplied; it does nothing unless the exit is running, and never changes whether a callback exists |
| Preloader.Cleanup | kushal-p/src/components/Preloader.tsx:30 | unmounting clears the timer and keeps the counter, the exit, the completion count and the callback |
| Preloader.CleanupIdempotent | kushal-p/src/components/Preloader.tsx:30 | clearing twice equals clearing once, and no tick changes a cleared preloader |
| Preloader.Step | kushal-p/src/components/Preloader.tsx:17-30 | no event lowers the counter, and every event keeps the invariant |
| Preloader.RunValidMonotone | kushal-p/src/components/Preloader.tsx:17-30 | across any run of events the invariant holds, and neither the counter nor the label decreases |
| Preloader.CompletesAtMostOnce | kushal-p/src/components/Preloader.tsx:21-27 | from mount, whatever happens, the callback runs at most once, and only with the counter at 100 and a callback supplied |
| Preloader.ExitEndRunsCallbackOnce | kushal-p/src/components/Preloader.tsx:23-27 | once the exit is queued, its end runs the callback exactly once, and a second end changes nothing |
| Preloader.UnmountBeforeDoneNeverCompletes | kushal-p/src/components/Preloader.tsx:30 | unmounting before 100 freezes the state, so the callback never runs |
| Preloader.TicksProgress | kushal-p/src/components/Preloader.tsx:18 | without an unmount, k ticks raise the counter to at least min(start + k, 100) |
| Preloader.TicksBounded | kushal-p/src/components/Preloader.tsx:18 | k ticks raise the counter by at most 8 k |
| Preloader.CompletesWithin100Ticks | kushal-p/src/components/Preloader.tsx:17-22 | from mount, 100 ticks always reach 100, clear the timer, queue the exit and show 100 |
| Preloader.NotDoneWithin12Ticks | kushal-p/src/components/Preloader.tsx:18-21 | from mount, 12 ticks or fewer never reach 100, and the label stays at most 96 |
| Talks.Lower | kushal-p/src/components/sections/Talks.tsx:56 | lowering keeps the length, maps every character to its lower case, and leaves no capitals |
| Talks.LowerIdempotent | kushal-p/src/components/sections/Talks.tsx:56 | lowering twice equals lowering once |
| Talks.TypeIcon | kushal-p/src/components/sections/Talks.tsx:55-66 | a type gets the book iff it is `workshop` ignoring case, the video iff `webinar`, and the microphone otherwise, `conference` included |
| Talks.TypeColor | kushal-p/src/components/sections/Talks.tsx:68-79 | the gradient is one of four classes; each known type gets its own, and every other type gets the default |
| Talks.ClassificationIgnoresCase | kushal-p/src/components/sections/Talks.tsx:56-69 | types that are equal up to case, and a type and its lower case, get the same icon and gradient |
| Talks.GradientDeterminesIcon | kushal-p/src/components/sections/Talks.tsx:55-79 | two types with the same gradient have the same icon |
| Talks.IconDoesNotDetermineGradient | kushal-p/src/components/sections/Talks.tsx:57-77 | `conference` and an unknown type share the microphone but differ in gradient |
| Talks.CapitalizedWorkshop | kushal-p/src/components/sections/Talks.tsx:56-60 | `Workshop` gets the book icon |
| Talks.CapitalizedConference | kushal-p/src/components/sections/Talks.tsx:69-71 | `Conference` gets the conference gradient |
| Talks.TalkCard | kushal-p/src/components/sections/Talks.tsx:161-171 | a card links to the talk's own link iff it is present, non-empty and not `#`; icon and gradient come from the type |

## Left out

- Animation: GSAP timelines, ScrollTrigger and Framer Motion props are visual
  effects of external libraries. The exit tween is only a queued step whose
  end is the `ExitEnd` event.
- Smooth scrolling: the Locomotive Scroll and ScrollTrigger bridge
  (`useLocomotiveScroll.ts`, `lib/scroll.ts`) wraps foreign libraries and DOM
  state.
- Preloader timing: the 80 ms interval and the tween durations are not
  modelled. Only the order of events is.
- Preloader.Tick: `Math.random` is a parameter and the counter is a real
  number. IEEE rounding of `current + r * 7 + 1` is not modelled.
- Preloader.Tick: an `onComplete` that changes identity re-runs the effect
  with a fresh counter. This re-mount is not modelled: the page passes a
  callback that stays stable while the preloader is shown.
- Preloader.Shown: the bar width, set from the unrounded counter, is not
  modelled.
- Talks.Lower: only ASCII letters are lowered. JavaScript's full Unicode
  `toLowerCase` also maps letters such as KELVIN SIGN to `k`, so a type
  spelled with such letters is classified differently here.
- Talks.TalkCard: only the fields the badge and the link read are modelled.
  Title, date, event, audience and location are plain text output.
- Projects.StackChips: React keys on chips are not modelled. A stack with
  repeated entries gives duplicate keys.
- Project card markup is not modelled: the featured badge, the
  problem/approach/impact texts and the live, code and case-study links are
  conditional rendering of static fields.
- Projects.Select: the render between a click and its effect is modelled as
  `Click` alone, where the old list is still shown. Framer's layout
  animation of that change is not modelled.
- Contact form, navigation helpers (`scrollIntoView`, `window.open`,
  `window.scrollTo`), static content, page composition and 3D embeds are I/O,
  browser side effects, data or React glue.
- Loading the project and talk lists from JSON is not modelled. The model
  takes the parsed lists as arguments.
