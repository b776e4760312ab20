/**
  The home page of app/page.tsx as a state machine. Each `async` handler is
  split into the synchronous state updates it makes before its `await` (a
  start event) and the updates it makes once the fetch settles (a completion
  event); the back handler is a single event. The page shows the preference
  form and the idea list exactly when no gift is selected, and the recipe card
  otherwise.
 */
module Page {
  import opened Types

  /**
    The six `useState` slots of the page. `giftIdeas` is `None` when the page
    stored the `undefined` it read from a response body lacking that property;
    `recipe` is `None` for both `null` and `undefined`, which the page and the
    recipe card only ever test for truthiness.
   */
  datatype State = State(
    friendPreferences: Option<FriendPreferences>,
    giftIdeas: Option<seq<GiftIdea>>,
    selectedGift: Option<GiftIdea>,
    recipe: Option<GiftRecipe>,
    isLoadingIdeas: bool,
    isLoadingRecipe: bool)

  /**
    The initial values passed to `useState`: nothing answered or selected, an
    empty idea list, no spinner. Only the form can be used.
   */
  function Initial(): (s: State)
    ensures s.friendPreferences.None? && s.giftIdeas == Some([])
    ensures s.selectedGift.None? && s.recipe.None?
    ensures !s.isLoadingIdeas && !s.isLoadingRecipe
    ensures Render(s) == FormAndList(false, Some([]))
    ensures forall e :: Enabled(s, e) <==> e.Submit?
  {
    State(None, Some([]), None, None, false, false)
  }

  /**
    How an awaited fetch settled, as the handler sees it. `Failed` stands for
    every path into the `catch` block: the fetch throwing, a response whose
    `ok` is false, a body `response.json()` cannot parse, and a body that is
    `null`, whose property read throws.
   */
  datatype Reply<+T> = Received(data: T) | Failed

  /** A parsed ideas response body; the page reads only its `giftIdeas` property. */
  datatype IdeasData = IdeasData(giftIdeas: Option<seq<GiftIdea>>)

  /** A parsed recipe response body; the page reads only its `recipe` property. */
  datatype RecipeData = RecipeData(recipe: Option<GiftRecipe>)

  /** The JSON body `handleSelectGift` posts to the recipe endpoint. */
  datatype RecipeRequest = RecipeRequest(giftTitle: string, friendPreferences: Option<FriendPreferences>)

  /** What the page renders under its heading. */
  datatype View =
    | FormAndList(isLoadingIdeas: bool, giftIdeas: Option<seq<GiftIdea>>)
    | RecipeCard(recipe: Option<GiftRecipe>, isLoading: bool)

  /** The view choice: form and list exactly when no gift is selected. */
  function Render(s: State): (v: View)
    ensures v.FormAndList? <==> s.selectedGift.None?
    ensures v.FormAndList? ==> v.isLoadingIdeas == s.isLoadingIdeas && v.giftIdeas == s.giftIdeas
    ensures v.RecipeCard? ==> v.recipe == s.recipe && v.isLoading == s.isLoadingRecipe
  {
    match s.selectedGift
    case None => FormAndList(s.isLoadingIdeas, s.giftIdeas)
    case Some(_) => RecipeCard(s.recipe, s.isLoadingRecipe)
  }

  /** `handlePreferenceSubmit` up to its `await`: store the answers and reset the rest of the view. */
  function SubmitStart(s: State, p: FriendPreferences): (r: State)
    ensures r.friendPreferences == Some(p)
    ensures r.isLoadingIdeas
    ensures r.giftIdeas == Some([]) && r.selectedGift == None && r.recipe == None
    ensures r.isLoadingRecipe == s.isLoadingRecipe
    ensures Render(r) == FormAndList(true, Some([]))
  {
    s.(friendPreferences := Some(p), isLoadingIdeas := true, giftIdeas := Some([]),
       selectedGift := None, recipe := None)
  }

  /** `handlePreferenceSubmit` after its `await`: the `try` body, or the `catch`, then `finally`. */
  function SubmitComplete(s: State, reply: Reply<IdeasData>): (r: State)
    ensures !r.isLoadingIdeas
    ensures reply.Received? ==> r.giftIdeas == reply.data.giftIdeas
    ensures reply.Failed? ==> r.giftIdeas == s.giftIdeas
    ensures r.friendPreferences == s.friendPreferences && r.selectedGift == s.selectedGift
    ensures r.recipe == s.recipe && r.isLoadingRecipe == s.isLoadingRecipe
  {
    var tried := match reply
      case Received(data) => s.(giftIdeas := data.giftIdeas)
      case Failed => s;
    tried.(isLoadingIdeas := false)
  }

  /** `handleSelectGift` up to its `await`. */
  function SelectStart(s: State, gift: GiftIdea): (r: State)
    ensures r.selectedGift == Some(gift) && r.recipe == None && r.isLoadingRecipe
    ensures r.giftIdeas == s.giftIdeas && r.friendPreferences == s.friendPreferences
    ensures r.isLoadingIdeas == s.isLoadingIdeas
    ensures Render(r) == RecipeCard(None, true)
  {
    s.(selectedGift := Some(gift), recipe := None, isLoadingRecipe := true)
  }

  /** The body `handleSelectGift` sends: the gift's title and the stored preferences. */
  function RecipeRequestOf(s: State, gift: GiftIdea): (q: RecipeRequest)
    ensures q.giftTitle == gift.title
    ensures q.friendPreferences == s.friendPreferences
  {
    RecipeRequest(gift.title, s.friendPreferences)
  }

  /** `handleSelectGift` after its `await`: the `try` body, or the `catch`, then `finally`. */
  function SelectComplete(s: State, reply: Reply<RecipeData>): (r: State)
    ensures !r.isLoadingRecipe
    ensures reply.Received? ==> r.recipe == reply.data.recipe
    ensures reply.Failed? ==> r.recipe == s.recipe
    ensures r.friendPreferences == s.friendPreferences && r.giftIdeas == s.giftIdeas
    ensures r.selectedGift == s.selectedGift && r.isLoadingIdeas == s.isLoadingIdeas
  {
    var tried := match reply
      case Received(data) => s.(recipe := data.recipe)
      case Failed => s;
    tried.(isLoadingRecipe := false)
  }

  /** `handleBackToGifts`. */
  function Back(s: State): (r: State)
    ensures r.selectedGift == None && r.recipe == None
    ensures r.friendPreferences == s.friendPreferences && r.giftIdeas == s.giftIdeas
    ensures r.isLoadingIdeas == s.isLoadingIdeas && r.isLoadingRecipe == s.isLoadingRecipe
    ensures Render(r) == FormAndList(s.isLoadingIdeas, s.giftIdeas)
  {
    s.(selectedGift := None, recipe := None)
  }

  datatype Event =
    | Submit(preferences: FriendPreferences)
    | IdeasSettled(ideasReply: Reply<IdeasData>)
    | Select(gift: GiftIdea)
    | RecipeSettled(recipeReply: Reply<RecipeData>)
    | BackClicked

  /** The state after one event: the handler (part) the event stands for. */
  function Step(s: State, e: Event): State {
    match e
    case Submit(p) => SubmitStart(s, p)
    case IdeasSettled(reply) => SubmitComplete(s, reply)
    case Select(g) => SelectStart(s, g)
    case RecipeSettled(reply) => SelectComplete(s, reply)
    case BackClicked => Back(s)
  }

  /**
    The events a user can cause in a sequential run, one request of each kind
    in flight at most. The form and the idea cards are on screen only while no
    gift is selected, and a card can only be one of the stored ideas; the
    recipe card offers its back button only once a recipe is loaded; a
    completion is only possible while its request is outstanding. A new
    submission waits for the previous one to settle: the form does not disable
    its button itself, so this guard is a choice of the model that keeps one
    ideas request in flight.
   */
  predicate Enabled(s: State, e: Event): (b: bool)
    ensures b && (e.Submit? || e.Select?) ==> Render(s).FormAndList?
    ensures b && e.Select? ==> Render(s).giftIdeas.Some? && e.gift in Render(s).giftIdeas.value
    ensures b && e.BackClicked? ==> Render(s) == RecipeCard(s.recipe, false) && s.recipe.Some?
  {
    match e
    case Submit(_) => s.selectedGift.None? && !s.isLoadingIdeas
    case IdeasSettled(_) => s.isLoadingIdeas
    case Select(g) => s.selectedGift.None? && s.giftIdeas.Some? && g in s.giftIdeas.value
    case RecipeSettled(_) => s.isLoadingRecipe
    case BackClicked => s.selectedGift.Some? && !s.isLoadingRecipe && s.recipe.Some?
  }

  /** Every event of `es` is enabled in the state the earlier ones lead to. */
  predicate Admissible(s: State, es: seq<Event>)
    decreases |es|
  {
    |es| == 0 || (Enabled(s, es[0]) && Admissible(Step(s, es[0]), es[1..]))
  }

  /** The state after the events of `es`, in order. */
  function Run(s: State, es: seq<Event>): State
    decreases |es|
  {
    if |es| == 0 then s else Run(Step(s, es[0]), es[1..])
  }

  /** The relations between the slots that sequential use of the page maintains. */
  predicate Consistent(s: State) {
    && (s.friendPreferences.None? ==> s.giftIdeas == Some([]) && !s.isLoadingIdeas)
    && (s.isLoadingIdeas ==> s.giftIdeas == Some([]) && s.selectedGift.None?)
    && (s.isLoadingRecipe ==> s.selectedGift.Some?)
    && (s.recipe.Some? ==> s.selectedGift.Some? && !s.isLoadingRecipe)
    && (s.selectedGift.Some? ==> s.giftIdeas.Some? && s.selectedGift.value in s.giftIdeas.value)
  }

  lemma InitialConsistent()
    ensures Consistent(Initial())
  {
  }

  lemma StepConsistent(s: State, e: Event)
    requires Consistent(s) && Enabled(s, e)
    ensures Consistent(Step(s, e))
  {
  }

  lemma {:induction false} RunConsistent(s: State, es: seq<Event>)
    requires Consistent(s) && Admissible(s, es)
    ensures Consistent(Run(s, es))
    decreases |es|
  {
    if |es| > 0 {
      StepConsistent(s, es[0]);
      RunConsistent(Step(s, es[0]), es[1..]);
    }
  }

  /** Every state a sequential run reaches from the initial one is consistent. */
  lemma ReachableConsistent(es: seq<Event>)
    requires Admissible(Initial(), es)
    ensures Consistent(Run(Initial(), es))
  {
    InitialConsistent();
    RunConsistent(Initial(), es);
  }

  /** The two spinners are never shown together. */
  lemma OneSpinnerAtATime(s: State)
    requires Consistent(s)
    ensures !(s.isLoadingIdeas && s.isLoadingRecipe)
  {
  }

  /**
    Whenever the user can pick an idea, preferences have been stored, so the
    recipe request never carries `null` preferences.
   */
  lemma RecipeRequestCarriesPreferences(s: State, gift: GiftIdea)
    requires Consistent(s) && Enabled(s, Select(gift))
    ensures RecipeRequestOf(s, gift).friendPreferences.Some?
    ensures RecipeRequestOf(s, gift).giftTitle == gift.title
  {
    assert gift in s.giftIdeas.value;
  }

  /**
    A submission, however it settles, ends with the spinner off, the new
    preferences stored, nothing selected and no recipe; a failure leaves the
    emptied list.
   */
  lemma SubmitRoundTrip(s: State, p: FriendPreferences, reply: Reply<IdeasData>)
    ensures var r := SubmitComplete(SubmitStart(s, p), reply);
      && !r.isLoadingIdeas
      && r.friendPreferences == Some(p) && r.selectedGift == None && r.recipe == None
      && (reply.Received? ==> r.giftIdeas == reply.data.giftIdeas)
      && (reply.Failed? ==> r.giftIdeas == Some([]))
  {
  }

  /**
    Selecting an idea, however the request settles, ends with the spinner off
    and that idea selected; the recipe is the response's on success and stays
    empty on failure; the stored ideas and preferences are untouched.
   */
  lemma SelectRoundTrip(s: State, gift: GiftIdea, reply: Reply<RecipeData>)
    ensures var r := SelectComplete(SelectStart(s, gift), reply);
      && !r.isLoadingRecipe
      && r.selectedGift == Some(gift)
      && (reply.Received? ==> r.recipe == reply.data.recipe)
      && (reply.Failed? ==> r.recipe == None)
      && r.giftIdeas == s.giftIdeas && r.friendPreferences == s.friendPreferences
  {
  }

  /** Going back from a recipe shows again the very list the recipe was chosen from. */
  lemma BackShowsSameIdeas(s: State, gift: GiftIdea, reply: Reply<RecipeData>)
    ensures Render(Back(SelectComplete(SelectStart(s, gift), reply)))
         == FormAndList(s.isLoadingIdeas, s.giftIdeas)
  {
  }

  /**
    After a recipe request that fails, or succeeds without a `recipe`
    property, nothing on screen can be used: the form and list are hidden
    because a gift is selected, and the recipe card renders nothing, so it has
    no back button.
   */
  lemma StuckWithoutRecipe(s: State, gift: GiftIdea, reply: Reply<RecipeData>)
    requires Consistent(s) && Enabled(s, Select(gift))
    requires reply.Failed? || reply.data.recipe.None?
    ensures var r := SelectComplete(SelectStart(s, gift), reply);
      Consistent(r) && forall e :: !Enabled(r, e)
  {
    StepConsistent(s, Select(gift));
    StepConsistent(SelectStart(s, gift), RecipeSettled(reply));
  }
}
