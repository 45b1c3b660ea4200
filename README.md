# Toast notifications: queue, timers, styles and facade

A model of the toast notification manager in
`src/components/ui/toast/index.tsx`.

- **Toast record** (`ToastTypes`). The caller passes `ToastDataArgs`; the
  manager fills in the defaults of `addToast`'s destructuring. Those are the `premium`
  appearance, the `var(--primary)` accent, 4000 ms, size `md`, the
  provider's default position, progress bar shown, pause on hover,
  dismissible and `normal` priority. The fresh id is a parameter, because
  the source draws it from the clock and a random number.
- **Provider** (`ToastProviders.ToastProvider`). A class that holds the
  ordered list of visible toasts and the map from toast id to auto-close
  timer handle.
  - `addToast` puts the new record on top. An urgent record goes on top of
    the non-urgent records only, so every earlier urgent record is dropped.
    The list is then cut to `maxToasts`, and the timers of the records cut
    off are cancelled.
  - `removeToast` filters the id out and cancels its timer. `clearAll`
    empties both the list and the map.
- **Pure list operations** (`ToastQueue`). The provider's methods are
  proved against these functions on sequences: insertion, truncation,
  eviction and removal. The stagger index each record is rendered with is
  one more function on the list.
- **Countdown** (`ToastProgress.ToastTimer`). The per-toast counter starts
  at 100. Every 50 ms it drops by `100 * 50 / duration` and is clamped at
  0. It stands still while a pausable toast is hovered, and at 0 it asks for
  the toast to be closed. Wall-clock scheduling is replaced by explicit
  events:
  - `Tick` is one firing of the interval;
  - `StartTimer`/`StopTimer` are the set-up and clean-up of the auto-close
    effect;
  - `Expire` is that timeout firing.
- **Style resolver** (`ToastStyles`). It models `getEnhancedVariantStyles`
  and `createEnhancedGradient`: the colour set, border colour and
  background a toast is drawn with, and the translucent start colour taken
  from an `rgb(...)` accent. `JsStrings` gives `indexOf`, `slice`, `split`,
  `join` and `includes` their JavaScript meaning on strings.
- **Facade** (`ToastFacade`). `useToast` fails outside a provider. The
  `success`/`error`/`warning`/`info` shortcuts fix a variant and an
  animation, and the caller's options, spread last, may override them.

Behaviour of the code worth noting, which the model reproduces:

- **Hovering.** Hovering pauses only the progress counter. The auto-close
  timeout registered at mount keeps running, so a hovered toast still
  closes after `duration` ms. `SetPaused` touches no timer, and `Expire`
  may fire whatever the pause state.
- **Insertion point.** A new record goes to the head of the whole list,
  not to the head of the records that share its position.
- **Eviction.** The list is cut at its tail whatever the priorities. An
  urgent record can therefore be cut while non-urgent ones stay.
- **Urgent adds.** An urgent add removes the earlier urgent records from
  the list without cancelling their timers. Their ids then stay in the
  timer map although they are no longer listed. `UrgentDropKeepsTimer`
  states this, and `AddToast` promises `TimersTracked` (every entry belongs
  to a listed toast with a positive duration) only for non-urgent
  adds.

## Model

| member | source | states |
|---|---|---|
| ToastTypes.NewToast | src/components/ui/toast/index.tsx:383-418 | the record carries the given id and the caller's message, variant and animation |
| ToastTypes.OmittedFieldsDefaulted | src/components/ui/toast/index.tsx:383-399 | each omitted optional field takes its own default, whatever else the call supplies: premium, var(--primary), 4000 ms, md, the provider's position, progress shown, pause on hover, dismissible, normal priority, and no mode or action |
| ToastTypes.AllOmittedDefaults | src/components/ui/toast/index.tsx:383-418 | a call with only message, variant and animation yields the record with every default at once |
| ToastTypes.SuppliedFieldsKept | src/components/ui/toast/index.tsx:383-418 | every field the caller supplies is stored unchanged, whatever the provider's default position |
| ToastTypes.NewToastRoundTrip | src/components/ui/toast/index.tsx:383-418 | re-adding a stored record with all its fields spelled out, under its own id, gives back the same record |
| ToastTypes.ArgsOf | src/components/ui/toast/index.tsx:12-38 | the arguments that spell out a stored record keep its message, variant, animation, mode and action, and supply appearance, duration and priority |
| JsStrings.IndexOf | src/components/ui/toast/index.tsx:338 | -1 exactly when the character is absent; otherwise the index of its first occurrence |
| JsStrings.Slice | src/components/ui/toast/index.tsx:338 | for in-range bounds, the substring between them; never longer than the string |
| JsStrings.SliceIndex | src/components/ui/toast/index.tsx:338 | an index of slice lands within the string and is kept as given when it already is |
| JsStrings.Split | src/components/ui/toast/index.tsx:338 | at least one piece, and no piece contains the separator |
| JsStrings.JoinSplit | src/components/ui/toast/index.tsx:338-341 | joining the pieces of a split with the same separator gives back the string |
| JsStrings.SplitJoin | src/components/ui/toast/index.tsx:338-341 | splitting a join of separator-free pieces gives back the pieces |
| JsStrings.IndexOfAfterFree | src/components/ui/toast/index.tsx:338 | a character absent from a prefix is found at the prefix length plus its index in the rest |
| JsStrings.Contains | src/components/ui/toast/index.tsx:312 | includes: some offset where the substring occurs; it implies the substring is no longer than the string, and the empty substring is always included |
| JsStrings.Join | src/components/ui/toast/index.tsx:341 | the pieces with the separator between consecutive ones; JoinSplit and SplitJoin state that it inverts Split |
| ToastStyles.VariantColors | src/components/ui/toast/index.tsx:54-85 | the lookup yields one of the five colour sets, and the default set for every variant outside the table |
| ToastStyles.SizeClass | src/components/ui/toast/index.tsx:269-273 | the width and padding classes of sm, md and lg |
| ToastStyles.ResolveStyles | src/components/ui/toast/index.tsx:263-333 | the size class follows the size; premium borders with the variant's primary colour and layers its light, primary and secondary tokens; every other appearance uses the caller's accent if it contains rgb and the variant's primary colour otherwise, and tints with the enhanced gradient of that colour |
| ToastStyles.StylesFor | src/components/ui/toast/index.tsx:283-332 | the appearance switch once the colour set is looked up; its properties are stated on ResolveStyles |
| ToastStyles.UnknownVariantStyledAsDefault | src/components/ui/toast/index.tsx:281 | an unrecognised variant is styled exactly like default, whatever the appearance, accent and size |
| ToastStyles.TintedByVariantPrimary | src/components/ui/toast/index.tsx:310-320 | with an accent lacking rgb, a non-premium toast is tinted from the enhanced gradient of its variant's primary colour |
| ToastStyles.DropAlpha | src/components/ui/toast/index.tsx:339 | the kept components are a prefix, one shorter than the input exactly when there were more than three |
| ToastStyles.CreateEnhancedGradient | src/components/ui/toast/index.tsx:335-336 | a colour without rgb gets the fixed fallback rgba(59, 130, 246, 0.1) |
| ToastStyles.GradientOfComponents | src/components/ui/toast/index.tsx:335-342 | for name(c1,...,cn) with plain components, the result is rgba( followed by the components with the alpha dropped, then , 0.08) |
| ToastStyles.WrappedComponents | src/components/ui/toast/index.tsx:338 | the text between the first ( and the first ) of name(c1,...,cn), split at commas, is c1, ..., cn |
| ToastStyles.RgbaAlphaReplaced | src/components/ui/toast/index.tsx:335-342 | rgba(r,g,b,a) becomes rgba(r,g,b, 0.08): the channels are kept and the alpha is replaced |
| ToastStyles.NotInJoin | src/components/ui/toast/index.tsx:341 | a character in no piece, other than the separator, is not in the join |
| ToastStyles.DefaultPrimaryGradient | src/components/ui/toast/index.tsx:335-342 | the default variant's primary rgb(100, 116, 139) becomes rgba(100, 116, 139, 0.08) |
| ToastStyles.DefaultVariantDefaultAccent | src/components/ui/toast/index.tsx:310-331 | a gradient toast of the default variant with the default accent is tinted from rgba(100, 116, 139, 0.08) and bordered with rgb(100, 116, 139) |
| ToastStyles.HslVariantDefaultAccent | src/components/ui/toast/index.tsx:310-331 | a gradient toast of success, error, warning or info with the default accent starts from the fixed fallback colour |
| ToastStyles.HslPrimaryIsNotRgb | src/components/ui/toast/index.tsx:54-79 | the primary colours of the four named variants contain no rgb |
| ToastQueue.IdSetAppend | src/components/ui/toast/index.tsx:433-441 | the ids of a concatenation are the union of the ids of the parts |
| ToastQueue.NonUrgent | src/components/ui/toast/index.tsx:427 | exactly the non-urgent records of the list, never more of them |
| ToastQueue.NonUrgentAppend | src/components/ui/toast/index.tsx:427 | filtering distributes over concatenation, so the order is kept |
| ToastQueue.NonUrgentNoUrgent | src/components/ui/toast/index.tsx:427 | a list without urgent records is left unchanged |
| ToastQueue.NonUrgentDistinct | src/components/ui/toast/index.tsx:427 | filtering keeps ids distinct |
| ToastQueue.ConsDistinct | src/components/ui/toast/index.tsx:422 | a record whose id is new, put on top of a list with distinct ids, keeps the ids distinct |
| ToastQueue.Inserted | src/components/ui/toast/index.tsx:420-429 | the new record is on top |
| ToastQueue.InsertedNonUrgent | src/components/ui/toast/index.tsx:422 | a non-urgent record goes on top of the whole previous list |
| ToastQueue.InsertedUrgent | src/components/ui/toast/index.tsx:425-429 | below an urgent record come exactly the previous non-urgent records, in order, and no urgent one |
| ToastQueue.InsertedDistinct | src/components/ui/toast/index.tsx:402-429 | with a fresh id, insertion keeps ids distinct |
| ToastQueue.InsertedIds | src/components/ui/toast/index.tsx:420-429 | the ids after an insertion are the new one or earlier ones, and all earlier ones for a non-urgent record |
| ToastQueue.Truncate | src/components/ui/toast/index.tsx:432-441 | the kept list is the prefix of length min(length, ceiling) |
| ToastQueue.Evicted | src/components/ui/toast/index.tsx:433 | the kept prefix followed by the evicted records is the whole list |
| ToastQueue.AfterAdd | src/components/ui/toast/index.tsx:420-445 | the new list is within the ceiling, a prefix of the insertion, and has the new record on top whenever the ceiling is positive |
| ToastQueue.SplitDisjoint | src/components/ui/toast/index.tsx:433-441 | the kept and the cut part of a list with distinct ids share no id |
| ToastQueue.AfterAddDistinct | src/components/ui/toast/index.tsx:420-445 | after an add with a fresh id, ids stay distinct and the list is within the ceiling |
| ToastQueue.AfterAddIds | src/components/ui/toast/index.tsx:420-445 | the listed ids are the new one or earlier ones; no evicted id stays listed; for a non-urgent add, listed and evicted ids together are exactly the earlier ids plus the new one |
| ToastQueue.Without | src/components/ui/toast/index.tsx:367 | exactly the records with another id, never more of them |
| ToastQueue.WithoutAppend | src/components/ui/toast/index.tsx:367 | removal distributes over concatenation, so the order is kept |
| ToastQueue.WithoutAbsent | src/components/ui/toast/index.tsx:366-373 | removing an id that is not listed changes nothing |
| ToastQueue.WithoutIdempotent | src/components/ui/toast/index.tsx:366-373 | removing the same id twice is the same as once |
| ToastQueue.WithoutDistinct | src/components/ui/toast/index.tsx:367 | removal keeps ids distinct and removes exactly that id from the id set |
| ToastQueue.StaggerIndex | src/components/ui/toast/index.tsx:470-478 | the index of the first record with the id, or -1 exactly when the id is not listed |
| ToastQueue.EvictionOrderExample | src/components/ui/toast/index.tsx:420-445 | four normal toasts under a ceiling of three leave D, C, B, and A is evicted |
| ToastQueue.UrgentOverrideExample | src/components/ui/toast/index.tsx:420-445 | normal A, normal B, then urgent C under a ceiling of two leave C, B |
| ToastProviders.UrgentDropKeepsTimer | src/components/ui/toast/index.tsx:425-442 | an earlier urgent record with a timer leaves the list on an urgent add, yet its timer entry survives |
| ToastProviders.NoTimerWithoutDuration | src/components/ui/toast/index.tsx:562-566 | while every entry is tied to a listed toast, a listed toast whose duration is not positive has no timer, so no timeout removes it |
| ToastProviders.AddKeepsTracked | src/components/ui/toast/index.tsx:420-442 | a non-urgent add, cancelling the entries of the records it cuts, keeps every entry tied to a listed toast with a positive duration |
| ToastProviders.RemoveKeepsTracked | src/components/ui/toast/index.tsx:366-373 | removing an id and its entry keeps every other entry tied to a listed toast with a positive duration |
| ToastProviders.ToastProvider.constructor | src/components/ui/toast/index.tsx:354-364 | the given ceiling and position, no toasts, no timers |
| ToastProviders.ToastProvider.Default | src/components/ui/toast/index.tsx:356-357 | a ceiling of 5 and top-right position, no toasts, no timers |
| ToastProviders.ToastProvider.AddToast | src/components/ui/toast/index.tsx:381-448 | the list becomes the insert-then-truncate of the defaulted record, distinct and within the ceiling; exactly the timers of the cut records are cancelled; timers stay tracked after a non-urgent add |
| ToastProviders.ToastProvider.RemoveToast | src/components/ui/toast/index.tsx:366-373 | the list loses exactly that id, in order; its timer entry is gone; the others are kept |
| ToastProviders.ToastProvider.ClearAll | src/components/ui/toast/index.tsx:375-379 | no toasts and no timers |
| ToastProviders.ToastProvider.StartTimer | src/components/ui/toast/index.tsx:562-566 | for a listed toast, a timer is registered under its own id exactly when its own duration is positive; the list is unchanged and every entry stays tied to a listed toast |
| ToastProviders.ToastProvider.StopTimer | src/components/ui/toast/index.tsx:568-571 | the id's timer entry is deleted; the list is unchanged |
| ToastProviders.ToastProvider.Expire | src/components/ui/toast/index.tsx:565 | a registered timeout firing removes its toast and its entry |
| ToastProviders.ToastProvider.ProgressTick | src/components/ui/toast/index.tsx:543-552 | one firing steps the counter; it closes the toast exactly when the counter is active, not paused and at 0, and otherwise changes nothing in the provider |
| ToastProgress.Step | src/components/ui/toast/index.tsx:540-541 | the step is positive for a positive duration |
| ToastProgress.StepTimesDuration | src/components/ui/toast/index.tsx:540-541 | duration steps add up to 100 times the 50 ms interval |
| ToastProgress.NextProgress | src/components/ui/toast/index.tsx:538-546 | a non-negative counter never rises and never goes below 0; without progress, with a non-positive duration or while paused it is unchanged |
| ToastProgress.Ticks | src/components/ui/toast/index.tsx:538 | the interval runs only with the progress bar shown and a positive duration |
| ToastProgress.RunTicks | src/components/ui/toast/index.tsx:543-552 | over any run of firings a non-negative counter never rises nor goes below 0, and stays put when the interval does not run |
| ToastProgress.Unpaused | src/components/ui/toast/index.tsx:544 | the number of firings that happened while not hovered |
| ToastProgress.PausedTicksFreeze | src/components/ui/toast/index.tsx:543-552 | after any run of hovered and unhovered firings the counter equals the one after the unhovered firings alone |
| ToastProgress.ProgressAfterShift | src/components/ui/toast/index.tsx:543-546 | one firing followed by k more is k + 1 firings |
| ToastProgress.ProgressAfterClosedForm | src/components/ui/toast/index.tsx:545 | after k unhovered firings the counter is max(0, p - k * step) |
| ToastProgress.ReachesZeroAfter | src/components/ui/toast/index.tsx:540-550 | from a full bar the counter is 0 after k firings exactly when 50 * k >= duration |
| ToastProgress.ToastTimer.constructor | src/components/ui/toast/index.tsx:510-513 | a mounted toast starts with a full bar, not paused, with the toast's id, duration and flags |
| ToastProgress.ToastTimer.Tick | src/components/ui/toast/index.tsx:543-552 | the counter becomes the next progress and never rises; close is requested exactly when it is active, not paused and at 0 |
| ToastProgress.ToastTimer.SetPaused | src/components/ui/toast/index.tsx:574-584 | a pausable toast pauses while hovered and resumes on leave; any other toast ignores the pointer; the counter is untouched |
| ToastFacade.OptionsOf | src/components/ui/toast/index.tsx:699-726 | the options that spell out a set of arguments carry its message, variant and animation |
| ToastFacade.ShortcutVariant | src/components/ui/toast/index.tsx:699-726 | each shortcut's variant is an entry of the colour table other than default |
| ToastFacade.ShortcutAnimation | src/components/ui/toast/index.tsx:699-726 | slide for success, bounce for error, pop for warning, fade for info |
| ToastFacade.ShortcutArgs | src/components/ui/toast/index.tsx:699-726 | message, variant and animation come from the options when present and otherwise from the call and the shortcut's pair; every other option field passes through unchanged |
| ToastFacade.ShortcutPartialOptions | src/components/ui/toast/index.tsx:699-726 | options without message, variant or animation keep the shortcut's pair, carry their own duration, priority, appearance and position, and leave the others to their defaults |
| ToastFacade.ShortcutDefaults | src/components/ui/toast/index.tsx:699-726 | without options, success slides, error bounces, warning pops and info fades, with all other fields at their defaults |
| ToastFacade.ShortcutFullOverride | src/components/ui/toast/index.tsx:699-726 | options spelling out every field make the shortcut exactly addToast with those arguments |
| ToastFacade.UseToast | src/components/ui/toast/index.tsx:691-697 | fails with the outside-provider message exactly when no provider is in scope, and otherwise returns that provider |
| ToastFacade.Notify | src/components/ui/toast/index.tsx:699-727 | a shortcut call is addToast of the shortcut arguments, with the same list and timer outcome |

## Left out

- Rendering is not modelled. That covers the JSX, icons (`getDefaultIcon`), the `cn` class joining, base classes, the position container classes, the close button and the progress bar element. The CSS text the colours are pasted into is also left out: suffixes such as `10` and `20`, shadows, and the `color` text field.
- Animation variants, spring parameters and stagger delays are not modelled. Only the index a record is rendered with is modelled (`StaggerIndex`).
- Id generation from `Date.now() + Math.random()` is a parameter of `AddToast`, with the precondition that the id is not already listed.
- Timer scheduling (`setTimeout`, `setInterval`, effect re-runs, React batching, StrictMode double calls) becomes explicit events. The model does not order those events in time.
- Floating point: progress is an exact real and ids are integers, so rounding in the step and in `Math.max` is not modelled.
- ToastProvider.constructor: `maxToasts` is a natural number. The source would accept a negative value, for which JavaScript's `slice` counts from the end, or a fractional one, which `slice` truncates.
- ToastStyles.VariantColors: only the five table keys are recognised. Variant strings that name inherited object properties (such as `constructor`) would yield a non-colour value in the source.
- ToastFacade.ShortcutArgs: an option key that is present but explicitly `undefined` is treated as absent. In the source such a key overwrites the shortcut's message, variant or animation with `undefined`.
- The action button's `onClick` callback and the custom `icon` node are not modelled. Only the label of an action button is kept.
- Component-level fallbacks in the `Toast` component are not modelled. `addToast` fills every field they cover except `mode` and `variant`, which it stores as given. An omitted mode renders like `light`, because rendering only tests for `dark` (`src/components/ui/toast/index.tsx:637`). An undefined variant would be styled as `default` anyway, through the colour-table fallback (`src/components/ui/toast/index.tsx:281`); the model's variant is always a string.
- The separate `use-toast.ts` helper module is not part of this model.
