/**
 * The Hue menu: a row of round buttons (rooms or lights), laid out 35 pixels
 * apart next to the module icon, hit-tested against the mouse by a 31 by 31
 * box around each centre. Rooms and lights stand for the library objects; only
 * their names are used. Drawing is not modelled.
 */
module HueWidget {
  import opened Base

  /** The diameter of a button. */
  const Size: int := 30

  /** The distance between neighbouring button centres: a button and a 5-pixel gap. */
  const Spacing: int := Size + 5

  /** Half a button, as Java's integer division SIZE / 2 computes it. */
  const Half: int := Size / 2

  /** The longest name drawn under a button. */
  const MaxNameLength: int := 8

  datatype Room = Room(name: string)
  datatype Light = Light(name: string)

  /** The shown prefix of a name: the name itself up to 8 characters, otherwise its first 8. */
  function DisplayName(name: string): (r: string)
    ensures |r| <= MaxNameLength
    ensures r <= name
    ensures |name| <= MaxNameLength ==> r == name
    ensures |name| > MaxNameLength ==> |r| == MaxNameLength
  {
    if |name| > MaxNameLength then name[..MaxNameLength] else name
  }

  /** The hit test on one axis: within Half of the centre, both ends included. */
  predicate Within(centre: int, mouse: int)
  {
    centre - Half <= mouse <= centre + Half
  }

  /** The hit box is 31 pixels wide: the centre and 15 on either side. */
  lemma WithinBounds(centre: int, mouse: int)
    ensures Within(centre, mouse) <==> centre - 15 <= mouse <= centre + 15
    ensures Within(centre, centre - 15) && Within(centre, centre + 15)
    ensures !Within(centre, centre - 16) && !Within(centre, centre + 16)
  {
  }

  /** The x coordinate tickButtons gives button i: to the left of x0 when right-bound, to the right otherwise. */
  function Slot(x0: int, rightBound: bool, i: nat): int
  {
    if rightBound then x0 - Spacing * i else x0 + Spacing * i
  }

  /** Neighbouring slots are 35 apart. */
  lemma SlotStep(x0: int, rightBound: bool, i: nat)
    ensures Slot(x0, rightBound, i + 1) == Slot(x0, rightBound, i) + (if rightBound then -Spacing else Spacing)
  {
  }

  /** Two different slots are at least 35 apart, more than a hit box: no point is within both. */
  lemma SlotsDisjoint(x0: int, rightBound: bool, i: nat, j: nat, mouse: int)
    requires i != j
    ensures !(Within(Slot(x0, rightBound, i), mouse) && Within(Slot(x0, rightBound, j), mouse))
  {
    if i < j {
      assert Spacing * j - Spacing * i == Spacing * (j - i);
    } else {
      assert Spacing * i - Spacing * j == Spacing * (i - j);
    }
  }

  /** HueButton: a name and a centre the menu positions. */
  class HueButton {
    const name: string
    var x: int
    var y: int

    constructor (name: string)
      ensures this.name == name && x == 0 && y == 0
    {
      this.name := name;
      x, y := 0, 0;
    }

    /** The button for a room carries the room's name. */
    constructor ForRoom(room: Room)
      ensures name == room.name && x == 0 && y == 0
    {
      name := room.name;
      x, y := 0, 0;
    }

    /** The button for a light carries the light's name. */
    constructor ForLight(light: Light)
      ensures name == light.name && x == 0 && y == 0
    {
      name := light.name;
      x, y := 0, 0;
    }

    /** isMouseOver: the mouse is within 15 pixels of the centre on both axes, edges included. */
    predicate IsMouseOver(mouseX: int, mouseY: int)
      reads this`x, this`y
    {
      Within(x, mouseX) && Within(y, mouseY)
    }

    /** The hover padding render uses: 2 pixels under the mouse, none otherwise. */
    function Padding(mouseX: int, mouseY: int): (r: int)
      reads this`x, this`y
      ensures r == 0 || r == 2
      ensures r == 2 <==> x - 15 <= mouseX <= x + 15 && y - 15 <= mouseY <= y + 15
    {
      if IsMouseOver(mouseX, mouseY) then 2 else 0
    }
  }

  /** No button appears twice in the list. */
  ghost predicate Distinct(buttons: seq<HueButton>)
  {
    forall i, j :: 0 <= i < j < |buttons| ==> buttons[i] != buttons[j]
  }

  /** The result of onClick as the source has it: with no list opened, the loop faults. */
  datatype Click = NullPointer | Hit(button: HueButton?)

  /** HueMenu: the opened buttons (none before the first open), the time of opening, and the kind of list. */
  class HueMenu {
    var buttons: Option<seq<HueButton>>
    var timestamp: int
    var lamp: bool

    ghost predicate Valid()
      reads this`buttons
    {
      buttons.Some? ==> Distinct(buttons.value)
    }

    constructor ()
      ensures Valid()
      ensures buttons.None? && timestamp == 0 && !lamp
    {
      buttons := None;
      timestamp := 0;
      lamp := false;
    }

    /** open(buttons): the whole list is replaced and the time of opening recorded. */
    method Open(list: seq<HueButton>, now: int)
      requires Distinct(list)
      modifies this`buttons, this`timestamp
      ensures Valid()
      ensures buttons == Some(list) && timestamp == now
    {
      buttons := Some(list);
      timestamp := now;
    }

    /** openRooms: one new button per room, in order; the list is of rooms. */
    method OpenRooms(rooms: seq<Room>, now: int)
      modifies this`buttons, this`timestamp, this`lamp
      ensures Valid()
      ensures buttons.Some? && |buttons.value| == |rooms| && timestamp == now && !lamp
      ensures forall i :: 0 <= i < |rooms| ==>
                fresh(buttons.value[i]) && buttons.value[i].name == rooms[i].name
    {
      var list: seq<HueButton> := [];
      var i := 0;
      while i < |rooms|
        invariant 0 <= i <= |rooms|
        invariant |list| == i && Distinct(list)
        invariant forall j :: 0 <= j < i ==> fresh(list[j]) && list[j].name == rooms[j].name
      {
        var button := new HueButton.ForRoom(rooms[i]);
        list := list + [button];
        i := i + 1;
      }
      Open(list, now);
      lamp := false;
    }

    /** openLights: one new button per light, in order; the list is of lights. */
    method OpenLights(lights: seq<Light>, now: int)
      modifies this`buttons, this`timestamp, this`lamp
      ensures Valid()
      ensures buttons.Some? && |buttons.value| == |lights| && timestamp == now && lamp
      ensures forall i :: 0 <= i < |lights| ==>
                fresh(buttons.value[i]) && buttons.value[i].name == lights[i].name
    {
      var list: seq<HueButton> := [];
      var i := 0;
      while i < |lights|
        invariant 0 <= i <= |lights|
        invariant |list| == i && Distinct(list)
        invariant forall j :: 0 <= j < i ==> fresh(list[j]) && list[j].name == lights[j].name
      {
        var button := new HueButton.ForLight(lights[i]);
        list := list + [button];
        i := i + 1;
      }
      Open(list, now);
      lamp := true;
    }

    /** tickButtons: button i is centred on (Slot(x0, rightBound, i), y0). */
    method TickButtons(x0: int, y0: int, rightBound: bool)
      requires Valid() && buttons.Some?
      modifies set i | 0 <= i < |buttons.value| :: buttons.value[i]
      ensures forall i :: 0 <= i < |buttons.value| ==>
                buttons.value[i].x == Slot(x0, rightBound, i) && buttons.value[i].y == y0
    {
      var list := buttons.value;
      var x := x0;
      var i := 0;
      while i < |list|
        invariant 0 <= i <= |list|
        invariant x == Slot(x0, rightBound, i)
        invariant forall j :: 0 <= j < i ==> list[j].x == Slot(x0, rightBound, j) && list[j].y == y0
      {
        list[i].x := x;
        list[i].y := y0;
        SlotStep(x0, rightBound, i);
        x := x - Spacing * (if rightBound then 1 else -1);
        i := i + 1;
      }
    }

    /** render: nothing without an opened list; otherwise the buttons are laid out (drawing is not modelled). */
    method Render(x0: int, y0: int, rightBound: bool)
      requires Valid()
      modifies if buttons.Some? then set i | 0 <= i < |buttons.value| :: buttons.value[i] else {}
      ensures buttons.Some? ==> forall i :: 0 <= i < |buttons.value| ==>
                buttons.value[i].x == Slot(x0, rightBound, i) && buttons.value[i].y == y0
    {
      if buttons.Some? {
        TickButtons(x0, y0, rightBound);
      }
    }

    /** onClick as written: the loop over a list that was never opened throws a NullPointerException. */
    method OnClickAsWritten(mouseX: int, mouseY: int) returns (r: Click)
      ensures buttons.None? <==> r == NullPointer
      ensures buttons.Some? ==> r.button == FirstHit(buttons.value, mouseX, mouseY)
    {
      if buttons.None? {
        return NullPointer;
      }
      var hit := OnClick(mouseX, mouseY);
      r := Hit(hit);
    }

    /**
     * onClick with the null check render has: the first button in list order
     * under the mouse, or null when there is none or no list is open.
     */
    method OnClick(mouseX: int, mouseY: int) returns (r: HueButton?)
      ensures buttons.None? ==> r == null
      ensures buttons.Some? ==> r == FirstHit(buttons.value, mouseX, mouseY)
    {
      if buttons.None? {
        return null;
      }
      var list := buttons.value;
      var i := 0;
      while i < |list|
        invariant 0 <= i <= |list|
        invariant FirstHitFrom(list, mouseX, mouseY, i) == FirstHit(list, mouseX, mouseY)
      {
        if list[i].IsMouseOver(mouseX, mouseY) {
          return list[i];
        }
        i := i + 1;
      }
      return null;
    }
  }

  /** The first button from index i on that is under the mouse, or null. */
  function FirstHitFrom(list: seq<HueButton>, mouseX: int, mouseY: int, i: nat): (r: HueButton?)
    reads set j | 0 <= j < |list| :: list[j]
    ensures r != null ==> exists k :: i <= k < |list| && list[k] == r && list[k].IsMouseOver(mouseX, mouseY) &&
                                      forall m :: i <= m < k ==> !list[m].IsMouseOver(mouseX, mouseY)
    ensures r == null <==> forall k :: i <= k < |list| ==> !list[k].IsMouseOver(mouseX, mouseY)
    decreases |list| - i
  {
    if i >= |list| then null
    else if list[i].IsMouseOver(mouseX, mouseY) then list[i]
    else FirstHitFrom(list, mouseX, mouseY, i + 1)
  }

  /** The first button in list order that is under the mouse, or null. */
  function FirstHit(list: seq<HueButton>, mouseX: int, mouseY: int): HueButton?
    reads set j | 0 <= j < |list| :: list[j]
  {
    FirstHitFrom(list, mouseX, mouseY, 0)
  }

  /** Laid out by tickButtons, at most one button is under any point, so the first hit is the only one. */
  lemma LaidOutHitIsUnique(list: seq<HueButton>, x0: int, y0: int, rightBound: bool, mouseX: int, mouseY: int, i: nat, j: nat)
    requires forall k :: 0 <= k < |list| ==> list[k].x == Slot(x0, rightBound, k) && list[k].y == y0
    requires i < |list| && j < |list| && i != j
    ensures !(list[i].IsMouseOver(mouseX, mouseY) && list[j].IsMouseOver(mouseX, mouseY))
  {
    SlotsDisjoint(x0, rightBound, i, j, mouseX);
  }

  /** Before any list is opened, every click faults in the code as written. */
  method ClickBeforeOpen(mouseX: int, mouseY: int) returns (r: Click)
    ensures r == NullPointer
  {
    var menu := new HueMenu();
    r := menu.OnClickAsWritten(mouseX, mouseY);
  }

  /** With the null check, a click before any list is opened finds no button. */
  method CorrectedClickBeforeOpen(mouseX: int, mouseY: int) returns (r: HueButton?)
    ensures r == null
  {
    var menu := new HueMenu();
    r := menu.OnClick(mouseX, mouseY);
  }
}
