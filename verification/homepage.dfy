/**
 * The page as a whole: the components that share the notification slot, driven by the
 * user's clicks and submissions and by time passing.
 */
module Homepage {
  import opened Wrappers
  import Theme
  import Menu
  import Faq
  import Forms
  import Notifications

  datatype Page = Page(theme: Theme.ThemeState, menu: Menu.MobileMenu, faq: seq<Faq.Entry>, board: Notifications.Board)

  datatype Event =
    | ThemeToggle
    | SignupSubmit(email: string, name: string)
    | NewsletterSubmit(email: string)
    | NotificationClose(id: nat)
    | MenuToggle
    | MenuLink
    | FaqQuestion(index: nat)
    | Elapse(d: nat)

  /** Every component's own invariant. */
  predicate Valid(p: Page) {
    && Theme.IconsMatch(p.theme)
    && Menu.IconMatches(p.menu)
    && Faq.Valid(p.faq)
    && Notifications.Wf(p.board)
  }

  /** The page after load, at time `now`, with `questions` FAQ entries. */
  function Load(stored: Option<string>, questions: nat, now: int): (p: Page)
    ensures Valid(p)
    ensures p.theme.dark <==> stored == Some(Theme.DarkName)
    ensures p.board.shown == []
  {
    Notifications.EmptyWf(now);
    Page(Theme.Initialize(stored), Menu.Closed, Faq.Initial(questions), Notifications.Empty(now))
  }

  /** A form's outcome: a rejection shows its notice, an accepted form leaves the page as it is. */
  function Submit(p: Page, o: Forms.Outcome): Page {
    match o
    case Rejected(n) => p.(board := Notifications.Show(p.board, n))
    case Accepted => p
  }

  function Step(p: Page, e: Event): Page {
    match e
    case ThemeToggle =>
      var t := Theme.Toggle(p.theme);
      p.(theme := t.0, board := Notifications.Show(p.board, t.1))
    case SignupSubmit(email, name) => Submit(p, Forms.TrialSignup(email, name))
    case NewsletterSubmit(email) => Submit(p, Forms.Newsletter(email))
    case NotificationClose(id) => p.(board := Notifications.Dismiss(p.board, id))
    case MenuToggle => p.(menu := Menu.Toggle(p.menu))
    case MenuLink => p.(menu := Menu.LinkClick(p.menu))
    case FaqQuestion(i) => if i < |p.faq| then p.(faq := Faq.Click(p.faq, i)) else p
    case Elapse(d) => p.(board := Notifications.Elapse(p.board, d))
  }

  function Run(p: Page, evs: seq<Event>): Page
    decreases |evs|
  {
    if |evs| == 0 then p else Run(Step(p, evs[0]), evs[1..])
  }

  lemma SubmitValid(p: Page, o: Forms.Outcome)
    requires Valid(p)
    ensures Valid(Submit(p, o))
  {
    if o.Rejected? {
      Notifications.ShowWf(p.board, o.notice);
    }
  }

  lemma ThemeToggleValid(p: Page)
    requires Valid(p)
    ensures Valid(Step(p, ThemeToggle))
  {
    Notifications.ShowWf(p.board, Theme.Toggle(p.theme).1);
  }

  /** Replacing the notification slot by a well-formed one keeps the page valid. */
  lemma BoardValid(p: Page, board: Notifications.Board)
    requires Valid(p) && Notifications.Wf(board)
    ensures Valid(p.(board := board))
  {
  }

  lemma CloseValid(p: Page, id: nat)
    requires Valid(p)
    ensures Valid(Step(p, NotificationClose(id)))
  {
    Notifications.DismissWf(p.board, id);
    BoardValid(p, Notifications.Dismiss(p.board, id));
  }

  lemma ElapseValid(p: Page, d: nat)
    requires Valid(p)
    ensures Valid(Step(p, Elapse(d)))
  {
    BoardValid(p, Notifications.Elapse(p.board, d));
  }

  lemma FaqStepValid(p: Page, i: nat)
    requires Valid(p)
    ensures Valid(Step(p, FaqQuestion(i)))
  {
    if i < |p.faq| {
      Faq.ClickPreservesValid(p.faq, i);
    }
  }

  lemma StepValid(p: Page, e: Event)
    requires Valid(p)
    ensures Valid(Step(p, e))
  {
    match e {
      case ThemeToggle => ThemeToggleValid(p);
      case SignupSubmit(email, name) => SubmitValid(p, Forms.TrialSignup(email, name));
      case NewsletterSubmit(email) => SubmitValid(p, Forms.Newsletter(email));
      case NotificationClose(id) => CloseValid(p, id);
      case MenuToggle =>
      case MenuLink =>
      case FaqQuestion(i) => FaqStepValid(p, i);
      case Elapse(d) => ElapseValid(p, d);
    }
  }

  /**
   * Whatever the user does, at most one notification is on the page, at most one FAQ
   * answer is open, and every icon agrees with the state it shows.
   */
  lemma {:induction false} RunValid(p: Page, evs: seq<Event>)
    requires Valid(p)
    ensures Valid(Run(p, evs))
    ensures |Run(p, evs).board.shown| <= 1
    decreases |evs|
  {
    if |evs| > 0 {
      StepValid(p, evs[0]);
      RunValid(Step(p, evs[0]), evs[1..]);
    }
  }

  /** Toggling the theme always leaves exactly one notification: the green success toast naming the new theme. */
  lemma ToggleShowsOneSuccess(p: Page)
    ensures var r := Step(p, ThemeToggle);
      && |r.board.shown| == 1
      && r.board.shown[0].cssClass == "bg-green-500"
      && r.board.shown[0].icon == "check-circle"
      && r.board.shown[0].message == (if r.theme.dark then "Dark theme activated" else "Light theme activated")
      && r.theme.dark == !p.theme.dark
  {
    assert Notifications.ClassTable["success"] == "bg-green-500";
    assert Notifications.IconTable["success"] == "check-circle";
  }

  /**
   * A submitted signup form changes only the notification slot: a rejection shows one
   * red error toast, an accepted form changes nothing yet.
   */
  lemma SignupTouchesOnlyTheSlot(p: Page, email: string, name: string)
    ensures var r := Step(p, SignupSubmit(email, name));
      && r.theme == p.theme && r.menu == p.menu && r.faq == p.faq
      && (Forms.TrialSignup(email, name).Rejected? ==>
            |r.board.shown| == 1 && r.board.shown[0].cssClass == "bg-red-500"
            && r.board.shown[0].icon == "exclamation-circle")
      && (Forms.TrialSignup(email, name).Accepted? ==> r == p)
  {
    assert Notifications.ClassTable["error"] == "bg-red-500";
    assert Notifications.IconTable["error"] == "exclamation-circle";
  }
}
