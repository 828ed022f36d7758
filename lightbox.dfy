/**
 * The lightbox's rotation and navigation state: the index of the image shown, the rotation
 * applied to it in degrees, and whether that rotation is still unsaved. Zoom, pan and rendering
 * are not part of this model.
 */
module Lightbox {
  import opened Wrappers
  import Actions

  /** JavaScript's `%`: the remainder takes the sign of the dividend. */
  function JsRem(a: int, b: int): (r: int)
    requires b > 0
    ensures a >= 0 ==> r == a % b && 0 <= r < b
    ensures a < 0 ==> -b < r <= 0 && r == -((-a) % b)
  {
    if a >= 0 then a % b else -((-a) % b)
  }

  /** The four orientations a rotation button can produce. */
  predicate Quarter(r: int)
  {
    r == 0 || r == 90 || r == 180 || r == 270
  }

  /** `handleRotateClockwise`'s update of the rotation. */
  function Clockwise(r: int): (r': int)
    ensures Quarter(r) ==> Quarter(r')
    ensures r >= -90 ==> 0 <= r' < 360
  {
    JsRem(r + 90, 360)
  }

  /** `handleRotateCounterClockwise`'s update of the rotation. */
  function CounterClockwise(r: int): (r': int)
    ensures Quarter(r) ==> Quarter(r')
    ensures r >= -270 ==> 0 <= r' < 360
  {
    JsRem(r - 90 + 360, 360)
  }

  /** Four clockwise steps come back to the start, and each direction undoes the other. */
  lemma {:induction false} RotationGroup(r: int)
    requires Quarter(r)
    ensures Clockwise(Clockwise(Clockwise(Clockwise(r)))) == r
    ensures Clockwise(CounterClockwise(r)) == r
    ensures CounterClockwise(Clockwise(r)) == r
  {
    if r == 0 {
      assert Clockwise(0) == 90 && Clockwise(90) == 180 && Clockwise(180) == 270 && Clockwise(270) == 0;
      assert CounterClockwise(0) == 270;
    } else if r == 90 {
      assert Clockwise(90) == 180 && Clockwise(180) == 270 && Clockwise(270) == 0 && Clockwise(0) == 90;
      assert CounterClockwise(90) == 0 && CounterClockwise(180) == 90;
    } else if r == 180 {
      assert Clockwise(180) == 270 && Clockwise(270) == 0 && Clockwise(0) == 90 && Clockwise(90) == 180;
      assert CounterClockwise(180) == 90 && CounterClockwise(270) == 180;
    } else {
      assert Clockwise(270) == 0 && Clockwise(0) == 90 && Clockwise(90) == 180 && Clockwise(180) == 270;
      assert CounterClockwise(270) == 180 && CounterClockwise(0) == 270;
    }
  }

  /** `goToNext`'s update of the index: one on, and from the last image back to the first. */
  function NextIndex(i: int, count: nat): (j: int)
    ensures 0 <= i < count ==> 0 <= j < count
    ensures 0 <= i < count - 1 ==> j == i + 1
    ensures i == count - 1 ==> j == 0
  {
    if i < count - 1 then i + 1 else 0
  }

  /** `goToPrevious`'s update of the index: one back, and from the first image on to the last. */
  function PrevIndex(i: int, count: nat): (j: int)
    ensures 0 <= i < count ==> 0 <= j < count
    ensures 0 < i ==> j == i - 1
    ensures i <= 0 ==> j == count - 1
  {
    if i > 0 then i - 1 else count - 1
  }

  /** On a valid index, next and previous undo each other. */
  lemma {:induction false} NavigationInverse(i: int, count: nat)
    requires 0 <= i < count
    ensures PrevIndex(NextIndex(i, count), count) == i
    ensures NextIndex(PrevIndex(i, count), count) == i
  {
    if i == count - 1 {
      assert NextIndex(i, count) == 0;
    }
    if i == 0 {
      assert PrevIndex(i, count) == count - 1;
    }
  }

  /** What a save attempt comes to. */
  datatype SaveOutcome =
    | NothingToSave            // refused: no unsaved rotation, or a rotation of 0
    | NoImage                  // the index names no image; nothing is sent
    | Saved                    // the action stored the rotated image
    | SaveError(message: string)

  /** The commands of the lightbox's `keydown` handler. */
  datatype Command =
    | Previous | Next | Dismiss | ZoomIn | ZoomOut | TurnClockwise | TurnCounterClockwise | Save
    | NoCommand                // any other key, or `s` without Ctrl or Meta

  /** The `switch` on `e.key`: `s` and `S` save only with Ctrl or Meta held. */
  function CommandOf(key: string, ctrlOrMeta: bool): (c: Command)
    ensures c == Dismiss <==> key == "Escape"
    ensures c == Save <==> (key == "s" || key == "S") && ctrlOrMeta
    ensures (c == TurnClockwise || c == TurnCounterClockwise) <==> key in ["r", "R", "l", "L"]
    ensures (c == Previous || c == Next) <==> key in ["ArrowLeft", "ArrowRight"]
  {
    if key == "ArrowLeft" then Previous
    else if key == "ArrowRight" then Next
    else if key == "Escape" then Dismiss
    else if key == "+" || key == "=" then ZoomIn
    else if key == "-" then ZoomOut
    else if key == "r" || key == "R" then TurnClockwise
    else if key == "l" || key == "L" then TurnCounterClockwise
    else if (key == "s" || key == "S") && ctrlOrMeta then Save
    else NoCommand
  }

  class Viewer {
    var currentIndex: int
    var rotation: int
    var hasUnsavedRotation: bool

    /** The rotation is a quarter turn, and any rotation away from 0 counts as unsaved. */
    ghost predicate Valid()
      reads this
    {
      Quarter(rotation) && (rotation != 0 ==> hasUnsavedRotation)
    }

    /** The initial state: the given index, no rotation. */
    constructor (initialIndex: int)
      ensures Valid()
      ensures currentIndex == initialIndex && rotation == 0 && !hasUnsavedRotation
    {
      currentIndex := initialIndex;
      rotation := 0;
      hasUnsavedRotation := false;
    }

    /** The effect run when the dialog opens or the initial index changes. */
    method Reopen(initialIndex: int)
      modifies this
      ensures Valid()
      ensures currentIndex == initialIndex && rotation == 0 && !hasUnsavedRotation
    {
      currentIndex := initialIndex;
      rotation := 0;
      hasUnsavedRotation := false;
    }

    method RotateClockwise()
      requires Valid()
      modifies this
      ensures Valid()
      ensures rotation == Clockwise(old(rotation)) && hasUnsavedRotation && currentIndex == old(currentIndex)
    {
      rotation := Clockwise(rotation);
      hasUnsavedRotation := true;
    }

    method RotateCounterClockwise()
      requires Valid()
      modifies this
      ensures Valid()
      ensures rotation == CounterClockwise(old(rotation)) && hasUnsavedRotation && currentIndex == old(currentIndex)
    {
      rotation := CounterClockwise(rotation);
      hasUnsavedRotation := true;
    }

    /** `resetTransforms`: no rotation and nothing unsaved. */
    method ResetTransforms()
      modifies this
      ensures Valid()
      ensures rotation == 0 && !hasUnsavedRotation && currentIndex == old(currentIndex)
    {
      rotation := 0;
      hasUnsavedRotation := false;
    }

    /**
     * `resetRotation`: back to 0, which counts as an unsaved change exactly when the image was
     * rotated; an unsaved rotation that had come back to 0 stops counting.
     */
    method ResetRotation()
      modifies this
      ensures Valid()
      ensures rotation == 0 && hasUnsavedRotation == (old(rotation) != 0) && currentIndex == old(currentIndex)
    {
      hasUnsavedRotation := rotation != 0;
      rotation := 0;
    }

    /** `goToNext` over `count` images: refused while a rotation is unsaved. */
    method GoToNext(count: nat) returns (moved: bool)
      requires Valid()
      modifies this
      ensures Valid()
      ensures moved == !old(hasUnsavedRotation)
      ensures !moved ==> currentIndex == old(currentIndex) && rotation == old(rotation) && hasUnsavedRotation
      ensures moved ==> currentIndex == NextIndex(old(currentIndex), count) && rotation == 0 && !hasUnsavedRotation
    {
      if hasUnsavedRotation {
        return false;
      }
      currentIndex := NextIndex(currentIndex, count);
      ResetTransforms();
      moved := true;
    }

    /** `goToPrevious` over `count` images: refused while a rotation is unsaved. */
    method GoToPrevious(count: nat) returns (moved: bool)
      requires Valid()
      modifies this
      ensures Valid()
      ensures moved == !old(hasUnsavedRotation)
      ensures !moved ==> currentIndex == old(currentIndex) && rotation == old(rotation) && hasUnsavedRotation
      ensures moved ==> currentIndex == PrevIndex(old(currentIndex), count) && rotation == 0 && !hasUnsavedRotation
    {
      if hasUnsavedRotation {
        return false;
      }
      currentIndex := PrevIndex(currentIndex, count);
      ResetTransforms();
      moved := true;
    }

    /** A thumbnail's `onClick`: refused while a rotation is unsaved, otherwise that image. */
    method GoTo(index: int) returns (moved: bool)
      requires Valid()
      modifies this
      ensures Valid()
      ensures moved == !old(hasUnsavedRotation)
      ensures !moved ==> currentIndex == old(currentIndex) && rotation == old(rotation) && hasUnsavedRotation
      ensures moved ==> currentIndex == index && rotation == 0 && !hasUnsavedRotation
    {
      if hasUnsavedRotation {
        return false;
      }
      currentIndex := index;
      ResetTransforms();
      moved := true;
    }

    /** `handleClose`: the dialog closes only when nothing is unsaved, and a refusal changes nothing. */
    method Close() returns (closed: bool)
      requires Valid()
      ensures closed <==> !hasUnsavedRotation
      ensures closed ==> rotation == 0
    {
      closed := !hasUnsavedRotation;
    }

    /**
     * `handleSaveRotation` over `count` images. `result` is what `rotateAndSaveImage` answered for
     * the shown image (None when the call threw); it is consulted only when the request is sent.
     * Every action result carries either an error or success, so the handler's third branch, for a
     * reply with neither, has no counterpart here.
     */
    method SaveRotation(count: nat, result: Option<Actions.ActionResult>) returns (outcome: SaveOutcome)
      requires Valid()
      modifies this
      ensures Valid()
      ensures currentIndex == old(currentIndex)
      ensures !old(hasUnsavedRotation) || old(rotation) == 0 ==> outcome == NothingToSave
      ensures old(hasUnsavedRotation) && old(rotation) != 0 && !(0 <= currentIndex < count) ==> outcome == NoImage
      ensures outcome == Saved <==> && old(hasUnsavedRotation) && old(rotation) != 0 && 0 <= currentIndex < count
                                    && result.Some? && !result.value.Failed?
      ensures outcome == Saved ==> rotation == 0 && !hasUnsavedRotation
      ensures outcome != Saved ==> rotation == old(rotation) && hasUnsavedRotation == old(hasUnsavedRotation)
      ensures outcome.SaveError? && result.Some? && result.value.Failed? ==>
                outcome.message == Actions.Message(result.value.error)
    {
      if !hasUnsavedRotation || rotation == 0 {
        return NothingToSave;
      }
      if !(0 <= currentIndex < count) {
        return NoImage;
      }
      match result
      case None =>
        outcome := SaveError("Erro inesperado ao rotacionar imagem");
      case Some(Failed(error)) =>
        outcome := SaveError(Actions.Message(error));
      case Some(_) =>
        hasUnsavedRotation := false;
        rotation := 0;
        outcome := Saved;
    }

    /**
     * The `keydown` handler while the dialog is `open`. `closed` says that `onClose` was called;
     * `saved` is the outcome of a save, when the key asked for one. Escape calls `onClose`
     * directly, so it closes even while a rotation is unsaved.
     */
    method KeyDown(open: bool, key: string, ctrlOrMeta: bool, count: nat, result: Option<Actions.ActionResult>)
      returns (closed: bool, saved: Option<SaveOutcome>)
      requires Valid()
      modifies this
      ensures Valid()
      ensures closed <==> open && key == "Escape"
      ensures saved.Some? <==> open && CommandOf(key, ctrlOrMeta) == Save
      ensures var c := CommandOf(key, ctrlOrMeta);
              !open || c == Dismiss || c == ZoomIn || c == ZoomOut || c == NoCommand ==>
                currentIndex == old(currentIndex) && rotation == old(rotation)
                && hasUnsavedRotation == old(hasUnsavedRotation)
      ensures var c := CommandOf(key, ctrlOrMeta);
              open && (c == Previous || c == Next) ==>
                if old(hasUnsavedRotation) then
                  currentIndex == old(currentIndex) && rotation == old(rotation) && hasUnsavedRotation
                else
                  currentIndex == (if c == Previous then PrevIndex(old(currentIndex), count)
                                   else NextIndex(old(currentIndex), count))
                  && rotation == 0 && !hasUnsavedRotation
      ensures var c := CommandOf(key, ctrlOrMeta);
              open && (c == TurnClockwise || c == TurnCounterClockwise) ==>
                currentIndex == old(currentIndex) && hasUnsavedRotation
                && rotation == (if c == TurnClockwise then Clockwise(old(rotation)) else CounterClockwise(old(rotation)))
      ensures saved.Some? ==>
                && currentIndex == old(currentIndex)
                && (saved.value == Saved <==> && old(hasUnsavedRotation) && old(rotation) != 0
                                              && 0 <= currentIndex < count && result.Some? && !result.value.Failed?)
                && (saved.value == Saved ==> rotation == 0 && !hasUnsavedRotation)
                && (saved.value != Saved ==> rotation == old(rotation) && hasUnsavedRotation == old(hasUnsavedRotation))
    {
      closed, saved := false, None;
      if !open {
        return;
      }
      match CommandOf(key, ctrlOrMeta)
      case Previous =>
        var moved := GoToPrevious(count);
      case Next =>
        var moved := GoToNext(count);
      case Dismiss =>
        closed := true;
      case ZoomIn =>
      case ZoomOut =>
      case TurnClockwise =>
        RotateClockwise();
      case TurnCounterClockwise =>
        RotateCounterClockwise();
      case Save =>
        var outcome := SaveRotation(count, result);
        saved := Some(outcome);
      case NoCommand =>
    }

    /**
     * The `keydown` handler with Escape routed through `handleClose`, as the close button and the
     * dialog's own close request are: Escape closes only when nothing is unsaved. Every other key
     * acts as in `KeyDown`.
     */
    method KeyDownChecked(open: bool, key: string, ctrlOrMeta: bool, count: nat, result: Option<Actions.ActionResult>)
      returns (closed: bool, saved: Option<SaveOutcome>)
      requires Valid()
      modifies this
      ensures Valid()
      ensures closed <==> open && key == "Escape" && !old(hasUnsavedRotation)
      ensures closed ==> rotation == 0
      ensures open && key == "Escape" ==>
                saved.None? && currentIndex == old(currentIndex) && rotation == old(rotation)
                && hasUnsavedRotation == old(hasUnsavedRotation)
    {
      if open && key == "Escape" {
        closed := Close();
        saved := None;
      } else {
        closed, saved := KeyDown(open, key, ctrlOrMeta, count, result);
      }
    }
  }

  /** A rotation followed by Escape: the dialog closes with the rotation still unsaved. */
  method EscapeDiscardsRotation() returns (closed: bool, unsaved: bool)
    ensures closed && unsaved
  {
    var v := new Viewer(0);
    v.RotateClockwise();
    var saved;
    closed, saved := v.KeyDown(true, "Escape", false, 1, None);
    unsaved := v.hasUnsavedRotation;
  }

  /** The same presses with Escape checked: the dialog stays open and the rotation is kept. */
  method EscapeCheckedKeepsRotation() returns (closed: bool, unsaved: bool)
    ensures !closed && unsaved
  {
    var v := new Viewer(0);
    v.RotateClockwise();
    var saved;
    closed, saved := v.KeyDownChecked(true, "Escape", false, 1, None);
    unsaved := v.hasUnsavedRotation;
  }
}
