/**
 * The two WTForms forms of the site and what `validate_on_submit` decides for them.
 * A field of a POST is `None` when the request did not carry it at all.
 */
module Forms {
  import opened Wrappers
  import Catalog

  /** The validators the forms declare. */
  datatype Validator =
    | InputRequired
    | Length(min: nat, max: nat)
    | AnyOf(values: set<string>)

  /** Whether one validator passes: `raw` is what the POST carried for the field,
      `data` the value the field holds after processing (the default when absent). */
  predicate Accepts(v: Validator, raw: Option<string>, data: string) {
    match v
    case InputRequired => raw.Some? && raw.value != ""
    case Length(lo, hi) => lo <= |data| <= hi
    case AnyOf(values) => data in values
  }

  /** Runs a field's validator chain. A failing InputRequired stops the chain and the
      others record an error and go on; either way the field has an error. */
  function Validates(chain: seq<Validator>, raw: Option<string>, data: string): (ok: bool)
    ensures ok <==> forall k :: 0 <= k < |chain| ==> Accepts(chain[k], raw, data)
  {
    if chain == [] then true
    else
      var rest := Validates(chain[1..], raw, data);
      assert forall k :: 1 <= k < |chain| ==> chain[k] == chain[1..][k - 1];
      Accepts(chain[0], raw, data) && rest
  }

  const NameRules: seq<Validator> := [InputRequired, Length(1, 50)]
  const PhoneRules: seq<Validator> := [InputRequired, Length(5, 20)]
  const WeekdayRules: seq<Validator> := [InputRequired, AnyOf(Catalog.Weekdays)]
  const HiddenRules: seq<Validator> := [InputRequired]

  /** A POST of BookingForm: client name and phone, and the hidden weekday, time and
      teacher fields. The teacher field arrives already converted to an int. */
  datatype BookingPost = BookingPost(
    name: Option<string>,
    phone: Option<string>,
    weekday: Option<string>,
    time: Option<string>,
    teacher: Option<int>)

  /** BookingForm validation for a POST to the booking page of (`day`, `time`), whose form
      is built with those path values as the hidden fields' defaults. */
  function BookingFormValid(f: BookingPost, day: string, time: string): (ok: bool)
    ensures ok <==>
      && f.name.Some? && 1 <= |f.name.value| <= 50
      && f.phone.Some? && 5 <= |f.phone.value| <= 20
      && f.weekday.Some? && f.weekday.value in Catalog.Weekdays
      && f.time.Some? && f.time.value != ""
      && f.teacher.Some?
  {
    TwoRules(NameRules, f.name, f.name.GetOr(""));
    TwoRules(PhoneRules, f.phone, f.phone.GetOr(""));
    TwoRules(WeekdayRules, f.weekday, f.weekday.GetOr(day));
    assert "" !in Catalog.Weekdays;
    && Validates(NameRules, f.name, f.name.GetOr(""))
    && Validates(PhoneRules, f.phone, f.phone.GetOr(""))
    && Validates(WeekdayRules, f.weekday, f.weekday.GetOr(day))
    && Validates(HiddenRules, f.time, f.time.GetOr(time))
    && f.teacher.Some?
  }

  /** A two-validator chain passes exactly when both of its validators do. */
  lemma TwoRules(chain: seq<Validator>, raw: Option<string>, data: string)
    requires |chain| == 2
    ensures Validates(chain, raw, data) <==> Accepts(chain[0], raw, data) && Accepts(chain[1], raw, data)
  {
  }

  /** The radio choices of RequestForm and their defaults. */
  const TimeChoices: seq<string> :=
    ["1-2 часа в неделю", "3-5 часов в неделю", "5-7 часов в неделю", "7-10 часов в неделю"]
  const GoalChoices: seq<string> := ["travel", "study", "work", "relocate"]
  const DefaultTime: string := "1-2 часа в неделю"
  const DefaultGoal: string := "travel"

  /** A POST of RequestForm. */
  datatype RequestPost = RequestPost(
    name: Option<string>,
    phone: Option<string>,
    time: Option<string>,
    goal: Option<string>)

  /** The value a radio field holds: the submitted one, else its default. */
  function ChosenTime(f: RequestPost): string { f.time.GetOr(DefaultTime) }
  function ChosenGoal(f: RequestPost): string { f.goal.GetOr(DefaultGoal) }

  /** RequestForm validation: the name and phone chains, and each radio field's value
      among its choices. An absent radio field keeps its default, which is a choice. */
  function RequestFormValid(f: RequestPost): (ok: bool)
    ensures ok <==>
      && f.name.Some? && 1 <= |f.name.value| <= 50
      && f.phone.Some? && 5 <= |f.phone.value| <= 20
      && (f.time.Some? ==> f.time.value in TimeChoices)
      && (f.goal.Some? ==> f.goal.value in Catalog.Goals)
  {
    TwoRules(NameRules, f.name, f.name.GetOr(""));
    TwoRules(PhoneRules, f.phone, f.phone.GetOr(""));
    assert DefaultTime in TimeChoices && DefaultGoal in Catalog.Goals;
    assert forall g :: g in GoalChoices <==> g in Catalog.Goals;
    && Validates(NameRules, f.name, f.name.GetOr(""))
    && Validates(PhoneRules, f.phone, f.phone.GetOr(""))
    && ChosenTime(f) in TimeChoices
    && ChosenGoal(f) in GoalChoices
  }
}
