/** `useToast`: the guard that refuses to work outside a provider, and the
    `success`/`error`/`warning`/`info` shortcuts, each a fixed
    variant/animation pair that the caller's options may override. */
module ToastFacade {
  import opened Wrappers
  import opened ToastTypes
  import opened ToastQueue
  import opened ToastProviders
  import opened ToastStyles

  /** `Partial<ToastDataArgs>`: every field may be omitted. */
  datatype ToastOptions = ToastOptions(
    message: Option<string>,
    variant: Option<string>,
    animation: Option<Animation>,
    mode: Option<Mode>,
    appearance: Option<Appearance>,
    gradientColor: Option<string>,
    duration: Option<int>,
    size: Option<Size>,
    position: Option<Position>,
    showProgress: Option<bool>,
    pauseOnHover: Option<bool>,
    actionButton: Option<ActionButton>,
    dismissible: Option<bool>,
    priority: Option<Priority>)

  const NoOptions := ToastOptions(None, None, None, None, None, None, None, None, None, None, None, None, None, None)

  /** The options that spell out every field of some `addToast` arguments. */
  function OptionsOf(data: ToastArgs): (o: ToastOptions)
    ensures o.message == Some(data.message) && o.variant == Some(data.variant)
    ensures o.animation == Some(data.animation)
  {
    ToastOptions(
      Some(data.message), Some(data.variant), Some(data.animation), data.mode, data.appearance,
      data.gradientColor, data.duration, data.size, data.position, data.showProgress,
      data.pauseOnHover, data.actionButton, data.dismissible, data.priority)
  }

  datatype Shortcut = Success | Error | Warning | Info

  /** The variant each shortcut fixes: always an entry of the colour table
      other than `default`. */
  function ShortcutVariant(k: Shortcut): (v: string)
    ensures KnownVariant(v) && v != "default"
  {
    match k
    case Success => "success"
    case Error => "error"
    case Warning => "warning"
    case Info => "info"
  }

  /** The animation each shortcut fixes. */
  function ShortcutAnimation(k: Shortcut): Animation {
    match k
    case Success => Slide
    case Error => Bounce
    case Warning => Pop
    case Info => Fade
  }

  /** `{ message, variant, animation, ...options }`: the options are spread
      last, so any field they carry wins. */
  function ShortcutArgs(k: Shortcut, message: string, options: ToastOptions): (data: ToastArgs)
    ensures data.variant == options.variant.GetOr(ShortcutVariant(k))
    ensures data.animation == options.animation.GetOr(ShortcutAnimation(k))
    ensures data.message == options.message.GetOr(message)
    ensures && data.mode == options.mode && data.appearance == options.appearance
            && data.gradientColor == options.gradientColor && data.duration == options.duration
            && data.size == options.size && data.position == options.position
            && data.showProgress == options.showProgress && data.pauseOnHover == options.pauseOnHover
            && data.actionButton == options.actionButton && data.dismissible == options.dismissible
            && data.priority == options.priority
  {
    ToastArgs(
      options.message.GetOr(message),
      options.variant.GetOr(ShortcutVariant(k)),
      options.animation.GetOr(ShortcutAnimation(k)),
      options.mode, options.appearance, options.gradientColor, options.duration, options.size,
      options.position, options.showProgress, options.pauseOnHover, options.actionButton,
      options.dismissible, options.priority)
  }

  /** Options that carry only some fields reach `addToast` with exactly
      those fields, the shortcut's own variant and animation, and the
      defaults for the rest: `error(msg, {duration: 8000})` stays a
      bouncing error toast of 8000 ms. */
  lemma ShortcutPartialOptions(k: Shortcut, message: string, options: ToastOptions, id: ToastId, p: Position)
    requires options.message.None? && options.variant.None? && options.animation.None?
    ensures var t := NewToast(ShortcutArgs(k, message, options), id, p);
      && t.message == message && t.variant == ShortcutVariant(k) && t.animation == ShortcutAnimation(k)
      && t.duration == options.duration.GetOr(4000) && t.priority == options.priority.GetOr(Normal)
      && t.appearance == options.appearance.GetOr(Premium) && t.position == options.position.GetOr(p)
  {
    var data := ShortcutArgs(k, message, options);
    OmittedFieldsDefaulted(data, id, p);
    SuppliedFieldsKept(data, id, p);
  }

  /** A shortcut without options stores its variant/animation pair and the
      defaults of `addToast`: `success` slides, `error` bounces, `warning`
      pops and `info` fades. */
  lemma ShortcutDefaults(k: Shortcut, message: string, id: ToastId, p: Position)
    ensures var t := NewToast(ShortcutArgs(k, message, NoOptions), id, p);
      && t == Toast(id, message, ShortcutVariant(k), ShortcutAnimation(k), None, Premium,
                    "var(--primary)", 4000, Md, p, true, true, None, true, Normal)
      && (k == Success ==> t.variant == "success" && t.animation == Slide)
      && (k == Error ==> t.variant == "error" && t.animation == Bounce)
      && (k == Warning ==> t.variant == "warning" && t.animation == Pop)
      && (k == Info ==> t.variant == "info" && t.animation == Fade)
  {
    AllOmittedDefaults(message, ShortcutVariant(k), ShortcutAnimation(k), id, p);
    assert ShortcutArgs(k, message, NoOptions) == RequiredOnly(message, ShortcutVariant(k), ShortcutAnimation(k));
  }

  /** Options that spell out every field override the shortcut entirely:
      the call is exactly `addToast` with those arguments. */
  lemma ShortcutFullOverride(k: Shortcut, message: string, data: ToastArgs)
    ensures ShortcutArgs(k, message, OptionsOf(data)) == data
  {
  }

  /** The message returned by the guard outside a provider. */
  const OutsideProvider := "useToast must be used within a ToastProvider"

  /** `useToast`: the provider in scope, or the error it throws when there
      is none. */
  function UseToast(context: Option<ToastProvider>): (r: Result<ToastProvider, string>)
    ensures r.Err? <==> context.None?
    ensures r.Ok? ==> r.value == context.value
    ensures r.Err? ==> r.error == OutsideProvider
  {
    match context
    case None => Err(OutsideProvider)
    case Some(p) => Ok(p)
  }

  /** A shortcut call on the provider `useToast` returned. */
  method Notify(provider: ToastProvider, k: Shortcut, message: string, options: ToastOptions, id: ToastId)
    requires provider.Valid() && id !in IdSet(provider.toasts)
    modifies provider
    ensures provider.Valid()
    ensures provider.toasts
         == AfterAdd(old(provider.toasts), NewToast(ShortcutArgs(k, message, options), id, provider.defaultPosition),
                     provider.maxToasts)
    ensures provider.timers
         == old(provider.timers)
          - IdSet(Evicted(Inserted(old(provider.toasts), NewToast(ShortcutArgs(k, message, options), id, provider.defaultPosition)),
                          provider.maxToasts))
  {
    provider.AddToast(ShortcutArgs(k, message, options), id);
  }
}
