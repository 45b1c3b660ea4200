/** The toast record, the arguments a producer passes to `addToast`, and the
    defaulting step that turns the one into the other. */
module ToastTypes {
  import opened Wrappers

  /** Toast ids are opaque numbers chosen by the provider. */
  type ToastId = int

  datatype Priority = Low | Normal | High | Urgent
  datatype Position = TopRight | TopLeft | BottomRight | BottomLeft | TopCenter | BottomCenter
  datatype Size = Sm | Md | Lg
  datatype Appearance = Glow | Gradient | Glassmorphism | Premium | Neon
  datatype Mode = Light | Dark
  datatype Animation = Slide | Fade | Bounce | Pop | Elastic | Flip

  /** The optional action button: its label (`label` is a Dafny keyword);
      the click handler is a producer's callback and not part of the model. */
  datatype ActionButton = ActionButton(caption: string)

  /** What a producer hands to `addToast`: every field except the id, the
      optional ones as `Option` (`None` is an omitted property). */
  datatype ToastArgs = ToastArgs(
    message: string,
    variant: string,
    animation: Animation,
    mode: Option<Mode>,
    appearance: Option<Appearance>,
    gradientColor: Option<string>,
    duration: Option<int>,
    size: Option<Size>,
    position: Option<Position>,
    showProgress: Option<bool>,
    pauseOnHover: Option<bool>,
    actionButton: Option<ActionButton>,
    dismissible: Option<bool>,
    priority: Option<Priority>)

  /** A stored toast: every defaulted field is filled in; `mode` and
      `actionButton` have no default and stay optional. */
  datatype Toast = Toast(
    id: ToastId,
    message: string,
    variant: string,
    animation: Animation,
    mode: Option<Mode>,
    appearance: Appearance,
    gradientColor: string,
    duration: int,
    size: Size,
    position: Position,
    showProgress: bool,
    pauseOnHover: bool,
    actionButton: Option<ActionButton>,
    dismissible: bool,
    priority: Priority)

  const DefaultAppearance: Appearance := Premium
  const DefaultGradientColor: string := "var(--primary)"
  const DefaultDuration: int := 4000
  const DefaultSize: Size := Md

  /** The record `addToast` builds: supplied fields are kept, omitted ones
      take the defaults of `addToast`'s destructuring, `position` the
      provider's default. */
  function NewToast(data: ToastArgs, id: ToastId, defaultPosition: Position): (t: Toast)
    ensures t.id == id && t.message == data.message
    ensures t.variant == data.variant && t.animation == data.animation
  {
    Toast(
      id,
      data.message,
      data.variant,
      data.animation,
      data.mode,
      data.appearance.GetOr(DefaultAppearance),
      data.gradientColor.GetOr(DefaultGradientColor),
      data.duration.GetOr(DefaultDuration),
      data.size.GetOr(DefaultSize),
      data.position.GetOr(defaultPosition),
      data.showProgress.GetOr(true),
      data.pauseOnHover.GetOr(true),
      data.actionButton,
      data.dismissible.GetOr(true),
      data.priority.GetOr(Normal))
  }

  /** The arguments that spell out every field of a stored toast. */
  function ArgsOf(t: Toast): (data: ToastArgs)
    ensures data.message == t.message && data.variant == t.variant && data.animation == t.animation
    ensures data.mode == t.mode && data.actionButton == t.actionButton
    ensures data.appearance.Some? && data.duration.Some? && data.priority.Some?
  {
    ToastArgs(
      t.message, t.variant, t.animation, t.mode,
      Some(t.appearance), Some(t.gradientColor), Some(t.duration), Some(t.size),
      Some(t.position), Some(t.showProgress), Some(t.pauseOnHover),
      t.actionButton, Some(t.dismissible), Some(t.priority))
  }

  /** Arguments with only the three required fields. */
  function RequiredOnly(message: string, variant: string, animation: Animation): ToastArgs {
    ToastArgs(message, variant, animation, None, None, None, None, None, None, None, None, None, None, None)
  }

  /** Each omitted optional field takes its default, whatever else the
      caller supplies. */
  lemma OmittedFieldsDefaulted(data: ToastArgs, id: ToastId, p: Position)
    ensures var t := NewToast(data, id, p);
      && (data.appearance.None? ==> t.appearance == Premium)
      && (data.gradientColor.None? ==> t.gradientColor == "var(--primary)")
      && (data.duration.None? ==> t.duration == 4000)
      && (data.size.None? ==> t.size == Md)
      && (data.position.None? ==> t.position == p)
      && (data.showProgress.None? ==> t.showProgress)
      && (data.pauseOnHover.None? ==> t.pauseOnHover)
      && (data.dismissible.None? ==> t.dismissible)
      && (data.priority.None? ==> t.priority == Normal)
      && (data.mode.None? ==> t.mode.None?)
      && (data.actionButton.None? ==> t.actionButton.None?)
  {
  }

  /** Omitting every optional field yields all the defaults at once. */
  lemma AllOmittedDefaults(message: string, variant: string, animation: Animation, id: ToastId, p: Position)
    ensures NewToast(RequiredOnly(message, variant, animation), id, p)
         == Toast(id, message, variant, animation, None, Premium, "var(--primary)", 4000, Md, p,
                  true, true, None, true, Normal)
  {
    OmittedFieldsDefaulted(RequiredOnly(message, variant, animation), id, p);
  }

  /** A field the producer supplies is stored unchanged, whatever the
      provider's default position. */
  lemma SuppliedFieldsKept(data: ToastArgs, id: ToastId, p: Position)
    ensures var t := NewToast(data, id, p);
      && t.mode == data.mode && t.actionButton == data.actionButton
      && (data.appearance.Some? ==> t.appearance == data.appearance.value)
      && (data.gradientColor.Some? ==> t.gradientColor == data.gradientColor.value)
      && (data.duration.Some? ==> t.duration == data.duration.value)
      && (data.size.Some? ==> t.size == data.size.value)
      && (data.position.Some? ==> t.position == data.position.value)
      && (data.showProgress.Some? ==> t.showProgress == data.showProgress.value)
      && (data.pauseOnHover.Some? ==> t.pauseOnHover == data.pauseOnHover.value)
      && (data.dismissible.Some? ==> t.dismissible == data.dismissible.value)
      && (data.priority.Some? ==> t.priority == data.priority.value)
  {
  }

  /** Spelling out a stored toast and adding it again under its own id gives
      back the same record: defaulting never overrides a supplied value. */
  lemma NewToastRoundTrip(t: Toast, p: Position)
    ensures NewToast(ArgsOf(t), t.id, p) == t
  {
  }
}
