/**
 * The staging framework of bioimg_gui/src/widgets/mod.rs.
 *
 * A staged field pairs the raw input a user is editing with the result of converting
 * it into a checked value. Drawing a field lets the user edit the raw input and then
 * recomputes the result from it; reading the field's state copies that result.
 * Optional fields and lists own their children exclusively.
 */
module Staging {
  import opened Results

  /** `GuiError`: the message of whatever error the conversion raised. */
  datatype GuiError = GuiError(message: string)

  /** What the user clicked on an optional field during one draw: "Add" is shown only when the
      field is absent, the remove button only when it is present. */
  datatype OptClick = NoClick | AddClicked | RemoveClicked

  /**
   * `StagingNum<N, T>` (raw input a number) and `StagingString<T>` (raw input a string).
   * `validate` is `T::try_from` with its error turned into a `GuiError`.
   */
  class StagingScalar<R, T> {
    const validate: R -> Result<T, GuiError>
    var raw: R
    var parsed: Result<T, GuiError>

    /** The result is always the conversion of the current raw input. */
    ghost predicate Valid()
      reads this
    {
      parsed == validate(raw)
    }

    /** `Default` (and `StagingString::new`): the default raw input, already converted. */
    constructor (defaultRaw: R, validate: R -> Result<T, GuiError>)
      ensures this.validate == validate
      ensures raw == defaultRaw && parsed == validate(defaultRaw)
      ensures Valid()
    {
      this.validate := validate;
      raw := defaultRaw;
      parsed := validate(defaultRaw);
    }

    /** `draw_and_parse`: the edit control leaves `edited` in the raw input, and the result is
        recomputed from it whatever it was before. */
    method DrawAndParse(edited: R)
      modifies this
      ensures raw == edited && parsed == validate(edited)
      ensures Valid()
      ensures old(Valid()) && edited == old(raw) ==> parsed == old(parsed)
    {
      raw := edited;
      parsed := validate(raw);
    }

    /** `state`: a copy of the last result, which is the conversion of the current raw input. */
    function State(): (r: Result<T, GuiError>)
      reads this
      ensures Valid() ==> r == validate(raw)
    {
      parsed
    }
  }

  /** `StagingOpt<Stg>`: no child, or one child it owns. */
  class StagingOpt<R, T> {
    const defaultRaw: R
    const validate: R -> Result<T, GuiError>
    var child: StagingScalar?<R, T>

    ghost predicate Valid()
      reads this, child
    {
      child != null ==> child.validate == validate && child.Valid()
    }

    /** `Default`: absent. */
    constructor (defaultRaw: R, validate: R -> Result<T, GuiError>)
      ensures this.defaultRaw == defaultRaw && this.validate == validate
      ensures child == null && State() == None
      ensures Valid()
    {
      this.defaultRaw := defaultRaw;
      this.validate := validate;
      child := null;
    }

    /** `state`: `None` when absent, otherwise the child's state. */
    function State(): (r: Option<Result<T, GuiError>>)
      reads this, child
      ensures r.None? <==> child == null
      ensures Valid() && child != null ==> r == Some(validate(child.raw))
    {
      if child == null then None else Some(child.State())
    }

    /** The "Add" button, shown only when absent: installs a fresh default child. */
    method Add()
      requires Valid()
      modifies this
      ensures Valid()
      ensures old(child) == null ==> fresh(child) && child.raw == defaultRaw
      ensures old(child) != null ==> child == old(child)
      ensures State() == if old(child) == null then Some(validate(defaultRaw)) else old(State())
    {
      if child == null {
        child := new StagingScalar(defaultRaw, validate);
      }
    }

    /** The remove button: the child and everything it held are dropped. */
    method Remove()
      modifies this
      ensures child == null && State() == None
      ensures Valid()
    {
      child := null;
    }

    /** `draw_and_parse`: when absent, only "Add" can act and the new child is not drawn in
        this frame; when present, the child is drawn and parsed first and then dropped if the
        remove button was clicked. */
    method DrawAndParse(edited: R, click: OptClick)
      requires Valid()
      modifies this, child
      ensures Valid()
      ensures old(child) == null && click == AddClicked ==>
                fresh(child) && child.raw == defaultRaw && State() == Some(validate(defaultRaw))
      ensures old(child) == null && click != AddClicked ==> child == null
      ensures old(child) != null && click == RemoveClicked ==> child == null
      ensures old(child) != null && click != RemoveClicked ==>
                child == old(child) && child.raw == edited && State() == Some(validate(edited))
    {
      if child == null {
        if click == AddClicked {
          Add();
        }
      } else {
        child.DrawAndParse(edited);
        if click == RemoveClicked {
          Remove();
        }
      }
    }
  }

  /** The states of a sequence of children, in order. */
  function StatesOf<R, T>(items: seq<StagingScalar<R, T>>): (r: seq<Result<T, GuiError>>)
    reads items
    ensures |r| == |items|
    ensures forall i :: 0 <= i < |items| ==> r[i] == items[i].parsed
  {
    if items == [] then [] else [items[0].State()] + StatesOf(items[1..])
  }

  /** `StagingVec<Stg>`: an ordered list of children it owns, never empty. */
  class StagingVec<R, T> {
    const itemName: string
    const defaultRaw: R
    const validate: R -> Result<T, GuiError>
    var staging: seq<StagingScalar<R, T>>

    ghost predicate Valid()
      reads this, staging
    {
      && |staging| >= 1
      && (forall i, j :: 0 <= i < j < |staging| ==> staging[i] != staging[j])
      && (forall i :: 0 <= i < |staging| ==> staging[i].validate == validate && staging[i].Valid())
    }

    /** `StagingVec::new`: one default child. */
    constructor New(itemName: string, defaultRaw: R, validate: R -> Result<T, GuiError>)
      ensures this.itemName == itemName && this.defaultRaw == defaultRaw && this.validate == validate
      ensures |staging| == 1 && fresh(staging[0]) && staging[0].raw == defaultRaw
      ensures State() == [validate(defaultRaw)]
      ensures Valid()
    {
      this.itemName := itemName;
      this.defaultRaw := defaultRaw;
      this.validate := validate;
      var item := new StagingScalar(defaultRaw, validate);
      staging := [item];
    }

    /** `state`: one result per child, in order; an error in one child does not hide the others. */
    function State(): (r: seq<Result<T, GuiError>>)
      reads this, staging
      ensures |r| == |staging|
      ensures forall i :: 0 <= i < |staging| ==> r[i] == staging[i].State()
      ensures Valid() ==> forall i :: 0 <= i < |staging| ==> r[i] == validate(staging[i].raw)
    {
      StatesOf(staging)
    }

    /** The first half of `draw_and_parse`: every child is drawn and parsed in order; child i
        ends with `edits[i]` as its raw input when the user edited it, its old raw input
        otherwise, and a child the user did not edit keeps its result. */
    method ParseItems(edits: map<int, R>)
      requires Valid()
      modifies staging
      ensures Valid()
      ensures forall i :: 0 <= i < |staging| ==>
                staging[i].raw == if i in edits then edits[i] else old(staging[i].raw)
      ensures forall i :: 0 <= i < |staging| && i !in edits ==> staging[i].parsed == old(staging[i].parsed)
    {
      for i := 0 to |staging|
        invariant forall k :: 0 <= k < |staging| ==> staging[k].validate == validate && staging[k].Valid()
        invariant forall k :: 0 <= k < i ==>
                    staging[k].raw == if k in edits then edits[k] else old(staging[k].raw)
        invariant forall k :: 0 <= k < i && k !in edits ==> staging[k].parsed == old(staging[k].parsed)
        invariant forall k :: i <= k < |staging| ==>
                    staging[k].raw == old(staging[k].raw) && staging[k].parsed == old(staging[k].parsed)
      {
        var item := staging[i];
        var edited := if i in edits then edits[i] else item.raw;
        item.DrawAndParse(edited);
      }
    }

    /** `draw_and_parse`: the children are drawn and parsed, then the "Add" and "Remove" buttons act. */
    method DrawAndParse(edits: map<int, R>, addClicked: bool, removeClicked: bool)
      requires Valid()
      modifies this, staging
      ensures Valid()
      ensures |staging| == Resized(old(|staging|), addClicked, removeClicked)
      ensures forall i :: 0 <= i < old(|staging|) && i < |staging| ==>
                staging[i] == old(staging[i]) &&
                staging[i].raw == (if i in edits then edits[i] else old(staging[i].raw))
      ensures |staging| > old(|staging|) ==> fresh(staging[|staging| - 1]) && staging[|staging| - 1].raw == defaultRaw
    {
      ParseItems(edits);
      Click(addClicked, removeClicked);
    }

    /** The button row of `draw_and_parse`: "Add" first, then "Remove". The children kept are
        the same objects, unchanged. */
    method Click(addClicked: bool, removeClicked: bool)
      requires Valid()
      modifies this
      ensures Valid()
      ensures |staging| == Resized(old(|staging|), addClicked, removeClicked)
      ensures |staging| <= old(|staging|) ==> staging == old(staging)[..|staging|]
      ensures |staging| > old(|staging|) ==>
                staging[..old(|staging|)] == old(staging) &&
                fresh(staging[|staging| - 1]) && staging[|staging| - 1].raw == defaultRaw
    {
      if addClicked {
        Grow();
      }
      if removeClicked {
        Shrink();
      }
    }

    /** The "Add" button: a default child is appended; the earlier ones stay as they were. */
    method Grow()
      requires Valid()
      modifies this
      ensures Valid()
      ensures |staging| == old(|staging|) + 1 && staging[..old(|staging|)] == old(staging)
      ensures fresh(staging[|staging| - 1]) && staging[|staging| - 1].raw == defaultRaw
      ensures State() == old(State()) + [validate(defaultRaw)]
    {
      var item := new StagingScalar(defaultRaw, validate);
      staging := staging + [item];
    }

    /** The "Remove" button: the last child is dropped, unless it is the only one. */
    method Shrink()
      requires Valid()
      modifies this
      ensures Valid()
      ensures staging == if old(|staging|) > 1 then old(staging)[..old(|staging|) - 1] else old(staging)
      ensures State() == if old(|staging|) > 1 then old(State())[..old(|staging|) - 1] else old(State())
    {
      if |staging| > 1 {
        staging := staging[..|staging| - 1];
      }
    }
  }

  /** The number of children after a draw of a list of n children with the given clicks. */
  function Resized(n: nat, addClicked: bool, removeClicked: bool): (m: nat)
    ensures n >= 1 ==> m >= 1
    ensures m == n || m == n + 1 || m + 1 == n
  {
    var grown := if addClicked then n + 1 else n;
    if removeClicked && grown > 1 then grown - 1 else grown
  }
}
