/** The two profile-editing forms. Both keep the skill lists and the two
    "new skill" inputs in component state beside a schema-checked form;
    they differ only in the form's fields: one has a public/private choice,
    the other an optional bio. The skill handlers are the same code in both,
    so one generic editor models both, with the form values as `V`. */
module ProfileForms {
  import opened Common

  const DefaultImage := "/placeholder.svg?height=100&width=100"
  const DefaultOffered := ["Graphic Design", "Video Editing", "Photoshop"]
  const DefaultWanted := ["Python", "JavaScript", "Manager"]

  // ------------------------------------------------------------------ schemas

  /** The checks of the two schemas that can fail. */
  datatype Issue = NameTooShort | NameTooLong | ProfileNotInEnum | BioTooLong | BioTooShort

  /** The messages the schemas attach to their checks. */
  function Message(i: Issue): string {
    match i
    case NameTooShort => "Name must be at least 2 characters."
    case NameTooLong => "Name must not be longer than 50 characters."
    case ProfileNotInEnum => "Invalid enum value. Expected 'public' | 'private'"
    case BioTooLong => "Bio must not be longer than 160 characters."
    case BioTooShort => "Bio must be at least 4 characters."
  }

  /** The values of the form with the public/private choice. */
  datatype PublicityValues = PublicityValues(name: string, location: Option<string>,
                                             availability: Option<string>, profile: string)

  /** The values of the form with the bio. */
  datatype BioValues = BioValues(name: string, location: Option<string>,
                                 availability: Option<string>, bio: Option<string>)

  const PublicityDefaults := PublicityValues("Marc Demo", Some("San Francisco, CA"), Some("Weekends, Evenings"), "public")
  const BioDefaults := BioValues("Marc Demo", Some("San Francisco, CA"), Some("Weekends, Evenings"),
    Some("Passionate full-stack developer looking to swap skills and learn new things!"))

  /** The name's checks, in schema order: at least 2 and at most 50
      characters. */
  function NameIssues(name: string): (r: seq<Issue>)
    ensures r == [] <==> 2 <= |name| <= 50
    ensures |r| <= 1
  {
    (if |name| < 2 then [NameTooShort] else []) + (if |name| > 50 then [NameTooLong] else [])
  }

  /** Every failed check of the public/private form's schema. Location and
      availability are optional text and never fail. */
  function PublicitySchemaIssues(v: PublicityValues): (r: seq<Issue>)
    ensures r == [] <==> 2 <= |v.name| <= 50 && (v.profile == "public" || v.profile == "private")
    ensures ProfileNotInEnum in r <==> v.profile != "public" && v.profile != "private"
  {
    NameIssues(v.name) + (if v.profile == "public" || v.profile == "private" then [] else [ProfileNotInEnum])
  }

  /** Every failed check of the bio form's schema: an absent bio passes, a
      present one needs 4 to 160 characters. */
  function BioSchemaIssues(v: BioValues): (r: seq<Issue>)
    ensures r == [] <==> 2 <= |v.name| <= 50 && (v.bio.Some? ==> 4 <= |v.bio.value| <= 160)
    ensures v.bio.None? ==> BioTooShort !in r && BioTooLong !in r
  {
    NameIssues(v.name)
    + (match v.bio
       case None => []
       case Some(b) => (if |b| > 160 then [BioTooLong] else []) + (if |b| < 4 then [BioTooShort] else []))
  }

  /** The default values pass their schemas. */
  lemma DefaultsPass()
    ensures PublicitySchemaIssues(PublicityDefaults) == []
    ensures BioSchemaIssues(BioDefaults) == []
  {
  }

  /** An emptied bio is a present bio of length 0, so it is refused: only an
      absent bio skips the length checks. */
  lemma EmptiedBioRefused(v: BioValues)
    requires 2 <= |v.name| <= 50 && v.bio == Some("")
    ensures BioSchemaIssues(v) == [BioTooShort]
  {
  }

  // ------------------------------------------------------------- skill lists

  /** Which of the two skill lists a handler works on. */
  datatype SkillKind = Offered | Wanted

  /** After an add and a remove of the same skill, the list holds what it
      held before less that skill: additions are not de-duplicated, so the
      remove takes out the earlier copies too. */
  lemma RemoveAfterAdd(skills: seq<string>, skill: string)
    ensures RemoveAll(skills + [skill], skill) == RemoveAll(skills, skill)
  {
    RemoveAllAppend(skills, [skill], skill);
    assert RemoveAll([skill], skill) == [];
  }

  /** Adding a skill already on the list adds a second copy. */
  lemma AddKeepsDuplicates(skills: seq<string>, skill: string)
    requires skill in skills
    ensures multiset(skills + [skill])[skill] >= 2
  {
    assert multiset(skills + [skill]) == multiset(skills) + multiset{skill};
  }

  /** The editor state of one profile form, with the form's values `V` and
      the values the form starts from and resets to. */
  class ProfileEditor<V> {
    var profileImage: string
    var skillsOffered: seq<string>
    var skillsWanted: seq<string>
    var newSkillOffered: string
    var newSkillWanted: string
    var values: V
    const defaults: V

    constructor (defaults: V)
      ensures this.defaults == defaults && values == defaults
      ensures profileImage == DefaultImage && skillsOffered == DefaultOffered && skillsWanted == DefaultWanted
      ensures newSkillOffered == "" && newSkillWanted == ""
    {
      this.defaults := defaults;
      values := defaults;
      profileImage := DefaultImage;
      skillsOffered, skillsWanted := DefaultOffered, DefaultWanted;
      newSkillOffered, newSkillWanted := "", "";
    }

    /** The `onChange` of one of the two new-skill inputs. */
    method SetNewSkill(kind: SkillKind, text: string)
      modifies this
      ensures kind.Offered? ==> newSkillOffered == text && newSkillWanted == old(newSkillWanted)
      ensures kind.Wanted? ==> newSkillWanted == text && newSkillOffered == old(newSkillOffered)
      ensures skillsOffered == old(skillsOffered) && skillsWanted == old(skillsWanted)
      ensures profileImage == old(profileImage) && values == old(values)
    {
      if kind.Offered? {
        newSkillOffered := text;
      } else {
        newSkillWanted := text;
      }
    }

    /** An edit of the schema-checked fields. */
    method Edit(v: V)
      modifies this
      ensures values == v
      ensures skillsOffered == old(skillsOffered) && skillsWanted == old(skillsWanted)
      ensures newSkillOffered == old(newSkillOffered) && newSkillWanted == old(newSkillWanted)
      ensures profileImage == old(profileImage)
    {
      values := v;
    }

    /** `handleAddSkill`: when the chosen input trims to something, append
        the trim to the chosen list, repeats included, and clear that input;
        otherwise change nothing. The other list and input are untouched. */
    method HandleAddSkill(kind: SkillKind)
      modifies this
      ensures kind.Offered? ==>
        var t := Trim(old(newSkillOffered));
        && (t != "" ==> skillsOffered == old(skillsOffered) + [t] && newSkillOffered == "")
        && (t == "" ==> skillsOffered == old(skillsOffered) && newSkillOffered == old(newSkillOffered))
        && skillsWanted == old(skillsWanted) && newSkillWanted == old(newSkillWanted)
      ensures kind.Wanted? ==>
        var t := Trim(old(newSkillWanted));
        && (t != "" ==> skillsWanted == old(skillsWanted) + [t] && newSkillWanted == "")
        && (t == "" ==> skillsWanted == old(skillsWanted) && newSkillWanted == old(newSkillWanted))
        && skillsOffered == old(skillsOffered) && newSkillOffered == old(newSkillOffered)
      ensures profileImage == old(profileImage) && values == old(values)
    {
      if kind.Offered? && Trim(newSkillOffered) != "" {
        skillsOffered := skillsOffered + [Trim(newSkillOffered)];
        newSkillOffered := "";
      } else if kind.Wanted? && Trim(newSkillWanted) != "" {
        skillsWanted := skillsWanted + [Trim(newSkillWanted)];
        newSkillWanted := "";
      }
    }

    /** `handleRemoveSkill`: every copy of the skill leaves the chosen list;
        the other list is untouched. */
    method HandleRemoveSkill(kind: SkillKind, skill: string)
      modifies this
      ensures kind.Offered? ==> skillsOffered == RemoveAll(old(skillsOffered), skill) && skillsWanted == old(skillsWanted)
      ensures kind.Wanted? ==> skillsWanted == RemoveAll(old(skillsWanted), skill) && skillsOffered == old(skillsOffered)
      ensures skill !in (if kind.Offered? then skillsOffered else skillsWanted)
      ensures newSkillOffered == old(newSkillOffered) && newSkillWanted == old(newSkillWanted)
      ensures profileImage == old(profileImage) && values == old(values)
    {
      if kind.Offered? {
        skillsOffered := RemoveAll(skillsOffered, skill);
      } else {
        skillsWanted := RemoveAll(skillsWanted, skill);
      }
    }

    /** `handleDiscard`: the form values, the image, both lists and both
        inputs go back to how the form started. */
    method HandleDiscard()
      modifies this
      ensures values == defaults
      ensures profileImage == DefaultImage && skillsOffered == DefaultOffered && skillsWanted == DefaultWanted
      ensures newSkillOffered == "" && newSkillWanted == ""
    {
      values := defaults;
      profileImage := DefaultImage;
      skillsOffered, skillsWanted := DefaultOffered, DefaultWanted;
      newSkillOffered, newSkillWanted := "", "";
    }
  }
}
