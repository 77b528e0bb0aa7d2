/**
 * The asset dialog (`AssetForm`): a name and a description, reset or prefilled whenever the
 * dialog opens, and a submit that refuses a blank name and otherwise hands a trimmed payload
 * to the page's `onSave`.
 */
module AssetForm {
  import opened Wrappers
  import opened Text
  import opened Forms

  /** `Asset` as the frontend receives it; a null description is `None`. */
  datatype AssetView = AssetView(id: int, name: string, description: Option<string>)

  /** `CreateAssetPayload` / `UpdateAssetPayload`; a `None` description is left `undefined`. */
  datatype AssetPayload = AssetPayload(name: string, description: Option<string>)

  const NameRequired := "Asset name is required."

  /** What the opening effect sets: the asset's name and description ('' for null) in edit mode, else both empty. */
  function OpenedFields(mode: Mode, asset: Option<AssetView>): (string, string) {
    if mode == EditMode && asset.Some? then (asset.value.name, OrEmpty(asset.value.description))
    else ("", "")
  }

  /** The payload of a valid submit: the trimmed name and, when not blank, the trimmed description. */
  function AssetPayloadOf(name: string, description: string): AssetPayload {
    AssetPayload(Trim(name), Kept(true, description))
  }

  /**
   * The payload rules: a name that is not blank goes out trimmed and non-empty; the description
   * goes out trimmed and non-blank, or is left out exactly when it is blank.
   */
  lemma AssetPayloadRules(name: string, description: string)
    requires !IsBlank(name)
    ensures var p := AssetPayloadOf(name, description);
      && p.name != "" && Trim(p.name) == p.name
      && (p.description.None? <==> IsBlank(description))
      && Clean(p.description)
  {
    TrimIdempotent(name);
    KeptIsTrimmed(true, description);
  }

  /**
   * Opening an asset for edit and submitting it unchanged sends the asset's own name and
   * description back when they are already trimmed and non-blank.
   */
  lemma EditThenSubmit(a: AssetView)
    requires a.name != "" && Trim(a.name) == a.name && Clean(a.description)
    ensures var (name, description) := OpenedFields(EditMode, Some(a));
      !IsBlank(name) && AssetPayloadOf(name, description) == AssetPayload(a.name, a.description)
  {
    CleanSurvives(a.description);
    EmptyIsBlank();
  }

  class Form {
    var name: string
    var description: string
    var formError: Option<string>

    /** The `useState` initial values. */
    constructor ()
      ensures name == "" && description == "" && formError == None
    {
      name, description, formError := "", "", None;
    }

    /** The effect run when `open`, `mode` or `asset` change: it acts only while the dialog is open. */
    method OnOpen(open: bool, mode: Mode, asset: Option<AssetView>)
      modifies this
      ensures open ==> (name, description) == OpenedFields(mode, asset) && formError == None
      ensures !open ==> name == old(name) && description == old(description) && formError == old(formError)
    {
      if open {
        if mode == EditMode && asset.Some? {
          name := asset.value.name;
          description := OrEmpty(asset.value.description);
        } else {
          name := "";
          description := "";
        }
        formError := None;
      }
    }

    /**
     * `handleSubmit`: a blank name sets the error and calls nothing; otherwise the error is
     * cleared and `onSave` is called once, with the payload.
     */
    method HandleSubmit() returns (call: Option<AssetPayload>)
      modifies this
      ensures name == old(name) && description == old(description)
      ensures IsBlank(name) ==> formError == Some(NameRequired) && call == None
      ensures !IsBlank(name) ==> formError == None && call == Some(AssetPayloadOf(name, description))
    {
      if IsBlank(name) {
        formError := Some(NameRequired);
        return None;
      }
      formError := None;
      var payload := AssetPayload(Trim(name), if !IsBlank(description) then Some(Trim(description)) else None);
      call := Some(payload);
    }
  }
}
