/**
 * Automatic choice of the generation model at start-up: among the models
 * that support `generateContent`, prefer the first whose name contains
 * "flash", then the first containing "pro", then the first listed one.
 */
module ModelSelection {
  import opened Wrappers
  import opened Text

  /** One entry of the backend's model listing. */
  datatype ModelInfo = ModelInfo(name: string, supportedGenerationMethods: seq<string>)

  /** What the listing call produced: the models, or the message of the exception it raised. */
  datatype Listing = Listed(models: seq<ModelInfo>) | ListingFailed(message: string)

  const GenerateContent: string := "generateContent"

  /** `'generateContent' in m.supported_generation_methods` (list membership, exact match). */
  predicate Eligible(m: ModelInfo)
  {
    GenerateContent in m.supportedGenerationMethods
  }

  /** `[m.name for m in models if 'generateContent' in m.supported_generation_methods]` */
  function EligibleNames(models: seq<ModelInfo>): (names: seq<string>)
    ensures |names| <= |models|
    ensures forall n :: n in names ==> exists m :: m in models && Eligible(m) && m.name == n
    ensures forall m :: m in models && Eligible(m) ==> m.name in names
  {
    if models == [] then []
    else if Eligible(models[0]) then [models[0].name] + EligibleNames(models[1..])
    else EligibleNames(models[1..])
  }

  /** `next((m for m in names if marker in m), None)` */
  function FirstContaining(names: seq<string>, marker: string): (r: Option<string>)
    ensures r.Some? ==> r.value in names && Contains(r.value, marker)
    ensures r.None? ==> forall n :: n in names ==> !Contains(n, marker)
  {
    if names == [] then None
    else if Contains(names[0], marker) then Some(names[0])
    else FirstContaining(names[1..], marker)
  }

  /** `next` yields the first name, in list order, that contains the marker. */
  lemma {:induction false} FirstContainingIsFirst(names: seq<string>, marker: string, i: nat)
    requires i < |names| && Contains(names[i], marker)
    requires forall j :: 0 <= j < i ==> !Contains(names[j], marker)
    ensures FirstContaining(names, marker) == Some(names[i])
  {
    if i > 0 {
      FirstContainingIsFirst(names[1..], marker, i - 1);
    }
  }

  /** Python truthiness of `valid_model`: neither `None` nor the empty string. */
  predicate Truthy(v: Option<string>)
  {
    v.Some? && v.value != ""
  }

  /**
   * The value `valid_model` ends up with. `None` when the listing raises,
   * and also when no model is eligible: the fallback `available_models[0]`
   * is evaluated before `next` runs, raises `IndexError`, and the handler
   * sets `valid_model = None`.
   */
  function SelectModel(listing: Listing): (r: Option<string>)
    ensures r.Some? ==> listing.Listed? && r.value in EligibleNames(listing.models)
  {
    match listing
    case ListingFailed(_) => None
    case Listed(models) =>
      var available := EligibleNames(models);
      var flash := FirstContaining(available, "flash");
      if Truthy(flash) then flash
      else if available == [] then None
      else
        match FirstContaining(available, "pro")
        case Some(pro) => Some(pro)
        case None => Some(available[0])
  }

  /** No model is chosen when the listing call raises. */
  lemma ListingFailureSelectsNothing(message: string)
    ensures SelectModel(ListingFailed(message)) == None
  {
  }

  /** The first eligible model in listing order is the head of the eligible names. */
  lemma {:induction false} FirstEligibleHeadsNames(models: seq<ModelInfo>, i: nat)
    requires i < |models| && Eligible(models[i])
    requires forall j :: 0 <= j < i ==> !Eligible(models[j])
    ensures EligibleNames(models) != [] && EligibleNames(models)[0] == models[i].name
  {
    if i > 0 {
      FirstEligibleHeadsNames(models[1..], i - 1);
    }
  }

  /** Without an eligible model the eligible list is empty. */
  lemma {:induction false} NoEligibleNoNames(models: seq<ModelInfo>)
    requires forall j :: 0 <= j < |models| ==> !Eligible(models[j])
    ensures EligibleNames(models) == []
  {
    if models != [] {
      NoEligibleNoNames(models[1..]);
    }
  }

  /**
   * The first eligible model (in listing order) whose name contains
   * `marker` is what the generator over the eligible names yields first.
   */
  lemma {:induction false} FirstMarkedIsFound(models: seq<ModelInfo>, marker: string, i: nat)
    requires i < |models| && Eligible(models[i]) && Contains(models[i].name, marker)
    requires forall j :: 0 <= j < i && Eligible(models[j]) ==> !Contains(models[j].name, marker)
    ensures FirstContaining(EligibleNames(models), marker) == Some(models[i].name)
  {
    if i > 0 {
      FirstMarkedIsFound(models[1..], marker, i - 1);
      if Eligible(models[0]) {
        assert EligibleNames(models)[1..] == EligibleNames(models[1..]);
      }
    }
  }

  /** When no eligible name contains `marker`, the generator is exhausted. */
  lemma {:induction false} NoMarkedIsNone(models: seq<ModelInfo>, marker: string)
    requires forall j :: 0 <= j < |models| && Eligible(models[j]) ==> !Contains(models[j].name, marker)
    ensures FirstContaining(EligibleNames(models), marker) == None
  {
    if models != [] {
      NoMarkedIsNone(models[1..], marker);
      if Eligible(models[0]) {
        assert EligibleNames(models)[1..] == EligibleNames(models[1..]);
      }
    }
  }

  /** A name containing a marker is not the empty string. */
  lemma MarkedNameIsNonEmpty(name: string, marker: string)
    ensures marker != "" && Contains(name, marker) ==> name != ""
  {
    if name == "" && marker != "" {
      ShorterThanPattern(name, marker);
    }
  }

  /** Preference 1: the first eligible model whose name contains "flash". */
  lemma SelectsFirstFlash(models: seq<ModelInfo>, i: nat)
    requires i < |models| && Eligible(models[i]) && Contains(models[i].name, "flash")
    requires forall j :: 0 <= j < i && Eligible(models[j]) ==> !Contains(models[j].name, "flash")
    ensures SelectModel(Listed(models)) == Some(models[i].name)
  {
    FirstMarkedIsFound(models, "flash", i);
    MarkedNameIsNonEmpty(models[i].name, "flash");
  }

  /** Preference 2: with no eligible "flash" model, the first eligible one containing "pro". */
  lemma SelectsFirstPro(models: seq<ModelInfo>, i: nat)
    requires forall j :: 0 <= j < |models| && Eligible(models[j]) ==> !Contains(models[j].name, "flash")
    requires i < |models| && Eligible(models[i]) && Contains(models[i].name, "pro")
    requires forall j :: 0 <= j < i && Eligible(models[j]) ==> !Contains(models[j].name, "pro")
    ensures SelectModel(Listed(models)) == Some(models[i].name)
  {
    NoMarkedIsNone(models, "flash");
    FirstMarkedIsFound(models, "pro", i);
  }

  /** Preference 3: with neither marker present, the first eligible model. */
  lemma SelectsFirstEligible(models: seq<ModelInfo>, i: nat)
    requires forall j :: 0 <= j < |models| && Eligible(models[j]) ==> !Contains(models[j].name, "flash")
    requires forall j :: 0 <= j < |models| && Eligible(models[j]) ==> !Contains(models[j].name, "pro")
    requires i < |models| && Eligible(models[i])
    requires forall j :: 0 <= j < i ==> !Eligible(models[j])
    ensures SelectModel(Listed(models)) == Some(models[i].name)
  {
    NoMarkedIsNone(models, "flash");
    NoMarkedIsNone(models, "pro");
    FirstEligibleHeadsNames(models, i);
  }

  /** With no eligible model, the eager `available_models[0]` raises and nothing is selected. */
  lemma NoEligibleSelectsNothing(models: seq<ModelInfo>)
    requires forall j :: 0 <= j < |models| ==> !Eligible(models[j])
    ensures SelectModel(Listed(models)) == None
  {
    NoEligibleNoNames(models);
  }

  /** Whatever is selected is the name of an eligible listed model. */
  lemma SelectedIsEligible(listing: Listing)
    ensures SelectModel(listing).Some? ==>
              listing.Listed? && exists m :: m in listing.models && Eligible(m) && m.name == SelectModel(listing).value
  {
    if listing.Listed? {
      var available := EligibleNames(listing.models);
      var selected := SelectModel(listing);
      if selected.Some? {
        assert selected.value in available by {
          if !Truthy(FirstContaining(available, "flash")) && FirstContaining(available, "pro").None? {
            assert selected.value == available[0];
          }
        }
      }
    }
  }
}
