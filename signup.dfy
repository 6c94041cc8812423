/** The two-step sign-up form: personal details first, then skills and
    availability. Skills are entered through a tag input that refuses
    repeats; time slots and days are toggled on and off; changing the
    availability kind or the country clears what depended on it. */
module Signup {
  import opened Common
  import ForgotPassword

  const FullNameRequired := "Full name is required"
  const FullNameTooShort := "Full name must be at least 4 characters"
  const EmailRequired := "Email is required"
  const EmailInvalid := "Please enter a valid email address"
  const PhoneRequired := "Phone number is required"
  const PhoneInvalid := "Please enter a valid phone number"
  const AvailabilityRequired := "Please select availability type"
  const NoTimeSlot := "Please select at least one time slot"
  const NoDay := "Please select at least one day"
  const TooFewOffered := "Please enter at least 3 skills offered"
  const TooFewWanted := "Please enter at least 1 skill wanted"

  const TimeSlots := ["Morning", "Evening"]
  const WeekDays := ["Monday", "Tuesday", "Wednesday", "Thursday", "Friday", "Saturday", "Sunday"]

  // ---------------------------------------------------------------- tag input

  /** The tag input's own state: the text being typed. The tags themselves
      belong to the form field the input is bound to; the handlers return
      what they pass to `onChange`, if they call it. */
  class TagInput {
    var input: string

    constructor ()
      ensures input == ""
    {
      input := "";
    }

    /** The text field's `onChange`. */
    method SetInput(text: string)
      modifies this
      ensures input == text
    {
      input := text;
    }

    /** `handleKeyDown`: Enter or space adds the trimmed text as a new tag
        and clears the field, unless the trim is empty or already a tag, in
        which case nothing happens at all. */
    method HandleKeyDown(key: string, value: seq<string>) returns (onChange: Option<seq<string>>)
      modifies this
      ensures var t := Trim(old(input));
        if (key == "Enter" || key == " ") && t != "" && t !in value then
          onChange == Some(value + [t]) && input == ""
        else
          onChange == None && input == old(input)
      ensures onChange.Some? && NoDuplicates(value) ==> NoDuplicates(onChange.value)
    {
      onChange := None;
      if key == "Enter" || key == " " {
        var t := Trim(input);
        if t != "" && t !in value {
          onChange := Some(value + [t]);
          input := "";
        }
      }
    }
  }

  /** `removeTag`: the tags other than the removed one, in their order. */
  function RemoveTag(value: seq<string>, tag: string): (r: seq<string>)
    ensures tag !in r
    ensures forall x :: x != tag ==> (x in r <==> x in value)
    ensures NoDuplicates(value) ==> NoDuplicates(r)
  {
    RemoveAllNoDuplicatesIf(value, tag);
    RemoveAllMembers(value, tag);
    RemoveAll(value, tag)
  }

  lemma RemoveAllNoDuplicatesIf(value: seq<string>, tag: string)
    ensures NoDuplicates(value) ==> NoDuplicates(RemoveAll(value, tag))
  {
    if NoDuplicates(value) {
      RemoveAllNoDuplicates(value, tag);
    }
  }

  /** Adding a tag and removing it again gives the list back. */
  lemma RemoveUndoesAdd(value: seq<string>, tag: string)
    requires tag !in value
    ensures RemoveTag(value + [tag], tag) == value
  {
    RemoveAllAppend(value, [tag], tag);
    RemoveAllAbsent(value, tag);
    assert RemoveAll([tag], tag) == [];
  }

  // ------------------------------------------------------------------ toggles

  /** The list `toggleTimeSlot` and `toggleDay` write: without the item if
      it was there, with it appended if not. */
  function Toggle(items: seq<string>, item: string): (r: seq<string>)
    ensures item in r <==> item !in items
    ensures forall x :: x != item ==> (x in r <==> x in items)
  {
    if item in items then RemoveAllMembers(items, item); RemoveAll(items, item) else items + [item]
  }

  /** Toggling an item on and off again restores the list. */
  lemma ToggleOnOff(items: seq<string>, item: string)
    requires item !in items
    ensures Toggle(Toggle(items, item), item) == items
  {
    RemoveUndoesAdd(items, item);
  }

  /** Toggling never creates a repeat. */
  lemma ToggleKeepsNoDuplicates(items: seq<string>, item: string)
    requires NoDuplicates(items)
    ensures NoDuplicates(Toggle(items, item))
  {
    if item in items {
      RemoveAllNoDuplicates(items, item);
    } else {
      var r := items + [item];
      forall i, j | 0 <= i < j < |r| ensures r[i] != r[j] {
        if j == |items| {
          assert r[i] == items[i];
        }
      }
    }
  }

  // ------------------------------------------------------------- field rules

  predicate IsLetter(c: char) { IsAsciiUpper(c) || IsAsciiLower(c) }
  predicate LocalChar(c: char) { IsLetter(c) || IsAsciiDigit(c) || c in "._%+-" }
  predicate DomainChar(c: char) { IsLetter(c) || IsAsciiDigit(c) || c in ".-" }

  predicate AllOf(s: string, ok: char -> bool) { forall j :: 0 <= j < |s| ==> ok(s[j]) }

  /** The sign-up email pattern `^[A-Z0-9._%+-]+@[A-Z0-9.-]+\.[A-Z]{2,}$`
      with the `i` flag, read literally: an '@' at `a` and a '.' at `b`
      split the address into a local part, a host and a top-level domain of
      at least two letters. */
  predicate SignupEmailPattern(s: string) {
    exists a, b :: 0 < a && a + 1 < b && b + 3 <= |s| && s[a] == '@' && s[b] == '.'
      && AllOf(s[..a], LocalChar) && AllOf(s[a + 1..b], DomainChar) && AllOf(s[b + 1..], IsLetter)
  }

  /** Every address the sign-up form accepts, the forgot-password page
      accepts too. */
  lemma SignupEmailPassesResetCheck(s: string)
    requires SignupEmailPattern(s)
    ensures ForgotPassword.ValidateEmail(s)
  {
    var a, b :| 0 < a && a + 1 < b && b + 3 <= |s| && s[a] == '@' && s[b] == '.'
      && AllOf(s[..a], LocalChar) && AllOf(s[a + 1..b], DomainChar) && AllOf(s[b + 1..], IsLetter);
    var local, host, top := s[..a], s[a + 1..b], s[b + 1..];
    assert ForgotPassword.Plain(local) by {
      forall j | 0 <= j < |local| ensures !IsJsWhitespace(local[j]) && local[j] != '@' {
        assert LocalChar(local[j]);
      }
    }
    assert ForgotPassword.Plain(host) by {
      forall j | 0 <= j < |host| ensures !IsJsWhitespace(host[j]) && host[j] != '@' {
        assert DomainChar(host[j]);
      }
    }
    assert ForgotPassword.Plain(top) by {
      forall j | 0 <= j < |top| ensures !IsJsWhitespace(top[j]) && top[j] != '@' {
        assert IsLetter(top[j]);
      }
    }
  }

  /** A one-letter top-level domain is refused. */
  lemma ShortTopLevelDomainRefused()
    ensures !SignupEmailPattern("ann@mail.c")
  {
    var s := "ann@mail.c";
    forall b | 2 <= b && b + 3 <= |s| ensures s[b] != '.' {
    }
  }

  /** The full name's rules: required, then at least four characters. */
  function FullNameError(name: string): (r: Option<string>)
    ensures r.None? <==> |name| >= 4
  {
    if name == "" then Some(FullNameRequired)
    else if |name| < 4 then Some(FullNameTooShort)
    else None
  }

  /** The email's rules: required, then the pattern. */
  function EmailError(email: string): (r: Option<string>)
    ensures r.None? <==> SignupEmailPattern(email)
  {
    if email == "" then Some(EmailRequired)
    else if !SignupEmailPattern(email) then Some(EmailInvalid)
    else None
  }

  /** The phone's rules: required, then the phone-number library's check,
      which is a parameter here. */
  function PhoneError(phone: string, isValidPhoneNumber: string -> bool): (r: Option<string>)
    ensures r.None? <==> phone != "" && isValidPhoneNumber(phone)
  {
    if phone == "" then Some(PhoneRequired)
    else if !isValidPhoneNumber(phone) then Some(PhoneInvalid)
    else None
  }

  /** The errors of the step-2 fields, in form order. The time-slot and day
      fields exist only for their availability kind, so only then do their
      rules apply. */
  function Step2Errors(availability: string, timeSlots: seq<string>, days: seq<string>,
                       skillsOffered: seq<string>, skillsWanted: seq<string>): (r: seq<string>)
    ensures r == [] <==>
      && availability != ""
      && (availability == "time" ==> |timeSlots| > 0)
      && (availability == "day" ==> |days| > 0)
      && |skillsOffered| >= 3
      && |skillsWanted| >= 1
  {
    (if availability == "" then [AvailabilityRequired] else [])
    + (if availability == "time" && |timeSlots| == 0 then [NoTimeSlot] else [])
    + (if availability == "day" && |days| == 0 then [NoDay] else [])
    + (if |skillsOffered| < 3 then [TooFewOffered] else [])
    + (if |skillsWanted| < 1 then [TooFewWanted] else [])
  }

  // --------------------------------------------------------------------- form

  /** The form's values and the current step. */
  class SignupForm {
    var currentStep: nat
    var fullName: string
    var email: string
    var phone: string
    var country: string
    var city: string
    var availability: string
    var timeSlots: seq<string>
    var days: seq<string>
    var skillsOffered: seq<string>
    var skillsWanted: seq<string>
    var isPublic: bool

    /** The form's default values, on step 1. */
    constructor ()
      ensures currentStep == 1 && !isPublic
      ensures fullName == "" && email == "" && phone == "" && country == "" && city == "" && availability == ""
      ensures timeSlots == [] && days == [] && skillsOffered == [] && skillsWanted == []
    {
      currentStep := 1;
      fullName, email, phone, country, city, availability := "", "", "", "", "", "";
      timeSlots, days, skillsOffered, skillsWanted := [], [], [], [];
      isPublic := false;
    }

    /** The step-1 fields' `onChange`. */
    method SetPersonalInfo(fullName: string, email: string, phone: string)
      modifies this
      ensures this.fullName == fullName && this.email == email && this.phone == phone
      ensures currentStep == old(currentStep) && country == old(country) && city == old(city)
      ensures availability == old(availability) && timeSlots == old(timeSlots) && days == old(days)
      ensures skillsOffered == old(skillsOffered) && skillsWanted == old(skillsWanted) && isPublic == old(isPublic)
    {
      this.fullName, this.email, this.phone := fullName, email, phone;
    }

    /** Choosing a country; when it differs from the current one, the effect
        watching it clears the city. */
    method SetCountry(c: string)
      modifies this
      ensures country == c
      ensures city == (if c != old(country) then "" else old(city))
      ensures currentStep == old(currentStep) && fullName == old(fullName) && email == old(email)
      ensures phone == old(phone) && availability == old(availability)
      ensures timeSlots == old(timeSlots) && days == old(days)
      ensures skillsOffered == old(skillsOffered) && skillsWanted == old(skillsWanted) && isPublic == old(isPublic)
    {
      if c != country {
        city := "";
      }
      country := c;
    }

    /** Choosing an availability kind; when it differs from the current one,
        the effect watching it clears the time slots and the days. */
    method SetAvailability(a: string)
      modifies this
      ensures availability == a
      ensures a != old(availability) ==> timeSlots == [] && days == []
      ensures a == old(availability) ==> timeSlots == old(timeSlots) && days == old(days)
      ensures currentStep == old(currentStep) && fullName == old(fullName) && email == old(email)
      ensures phone == old(phone) && country == old(country) && city == old(city)
      ensures skillsOffered == old(skillsOffered) && skillsWanted == old(skillsWanted) && isPublic == old(isPublic)
    {
      if a != availability {
        timeSlots, days := [], [];
      }
      availability := a;
    }

    /** `toggleTimeSlot`. */
    method ToggleTimeSlot(slot: string)
      modifies this
      ensures timeSlots == Toggle(old(timeSlots), slot)
      ensures slot in timeSlots <==> slot !in old(timeSlots)
      ensures currentStep == old(currentStep) && fullName == old(fullName) && email == old(email)
      ensures phone == old(phone) && country == old(country) && city == old(city)
      ensures availability == old(availability) && days == old(days)
      ensures skillsOffered == old(skillsOffered) && skillsWanted == old(skillsWanted) && isPublic == old(isPublic)
    {
      timeSlots := Toggle(timeSlots, slot);
    }

    /** `toggleDay`. */
    method ToggleDay(day: string)
      modifies this
      ensures days == Toggle(old(days), day)
      ensures day in days <==> day !in old(days)
      ensures currentStep == old(currentStep) && fullName == old(fullName) && email == old(email)
      ensures phone == old(phone) && country == old(country) && city == old(city)
      ensures availability == old(availability) && timeSlots == old(timeSlots)
      ensures skillsOffered == old(skillsOffered) && skillsWanted == old(skillsWanted) && isPublic == old(isPublic)
    {
      days := Toggle(days, day);
    }

    /** The skill fields' `onChange`, as a tag input calls it. */
    method SetSkills(offered: bool, tags: seq<string>)
      modifies this
      ensures offered ==> skillsOffered == tags && skillsWanted == old(skillsWanted)
      ensures !offered ==> skillsWanted == tags && skillsOffered == old(skillsOffered)
      ensures currentStep == old(currentStep) && fullName == old(fullName) && email == old(email)
      ensures phone == old(phone) && country == old(country) && city == old(city)
      ensures availability == old(availability) && timeSlots == old(timeSlots) && days == old(days)
      ensures isPublic == old(isPublic)
    {
      if offered {
        skillsOffered := tags;
      } else {
        skillsWanted := tags;
      }
    }

    /** `handleNextStep`: step 2 only when the three step-1 fields pass
        their rules. */
    method HandleNextStep(isValidPhoneNumber: string -> bool)
      modifies this
      ensures var ok := FullNameError(old(fullName)).None? && EmailError(old(email)).None?
                        && PhoneError(old(phone), isValidPhoneNumber).None?;
        currentStep == (if ok then 2 else old(currentStep))
      ensures currentStep == 2 && old(currentStep) != 2 ==>
        |fullName| >= 4 && SignupEmailPattern(email) && phone != "" && isValidPhoneNumber(phone)
      ensures fullName == old(fullName) && email == old(email) && phone == old(phone)
      ensures country == old(country) && city == old(city) && availability == old(availability)
      ensures timeSlots == old(timeSlots) && days == old(days)
      ensures skillsOffered == old(skillsOffered) && skillsWanted == old(skillsWanted) && isPublic == old(isPublic)
    {
      if FullNameError(fullName).None? && EmailError(email).None? && PhoneError(phone, isValidPhoneNumber).None? {
        currentStep := 2;
      }
    }

    /** The Back button of step 2. */
    method Back()
      modifies this
      ensures currentStep == 1
      ensures fullName == old(fullName) && email == old(email) && phone == old(phone)
      ensures country == old(country) && city == old(city) && availability == old(availability)
      ensures timeSlots == old(timeSlots) && days == old(days)
      ensures skillsOffered == old(skillsOffered) && skillsWanted == old(skillsWanted) && isPublic == old(isPublic)
    {
      currentStep := 1;
    }
  }
}
