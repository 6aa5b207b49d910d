/** The two controllers: `KeyController` (arrow keys, set by key events) and
    `RngController` (flips one random flag each time its `update` hook runs). */
module Controllers {
  import opened Wrappers
  import opened JsNumbers

  datatype Key = Up | Down | Left | Right

  /** The four directional signals a lander reads each tick. */
  datatype Flags = Flags(up: bool, down: bool, left: bool, right: bool) {

    function Get(k: Key): bool {
      match k
      case Up => up
      case Down => down
      case Left => left
      case Right => right
    }

    /** `self[key] = v`: sets one signal and leaves the other three alone. */
    function With(k: Key, v: bool): (f: Flags)
      ensures f.Get(k) == v
      ensures forall o :: o != k ==> f.Get(o) == Get(o)
    {
      match k
      case Up => this.(up := v)
      case Down => this.(down := v)
      case Left => this.(left := v)
      case Right => this.(right := v)
    }

    /** `self[key] = self[key] ? false : true`. */
    function Toggle(k: Key): Flags {
      With(k, !Get(k))
    }
  }

  /** A signal never set is `undefined`, which reads as false. */
  const NoFlags: Flags := Flags(false, false, false, false)

  /** `KeyController.keys`: the arrow-key codes and the signal each drives. */
  function KeyForCode(code: int): Option<Key> {
    if code == 37 then Some(Left)
    else if code == 39 then Some(Right)
    else if code == 38 then Some(Up)
    else if code == 40 then Some(Down)
    else None
  }

  /** `RngController.keys`, in the order `lander.js` lists them. */
  const ScriptedKeys: seq<Key> := [Down, Up, Left, Right]

  /** `keys[(Math.random() * keys.length) | 0]` for a draw r in [0, 1). */
  function ScriptedKey(r: real): Key
    requires 0.0 <= r < 1.0
  {
    var i := ToInt32(r * 4.0);
    if 0 <= i < 4 then ScriptedKeys[i] else Down
  }

  /** Exactly the four arrow codes drive a signal, and distinct codes drive
      distinct signals. */
  lemma ArrowKeysOnly(code: int, other: int)
    ensures KeyForCode(code).Some? <==> 37 <= code <= 40
    ensures KeyForCode(code).Some? && KeyForCode(code) == KeyForCode(other) ==> code == other
  {
  }

  /** The arrow code of each signal, the inverse of `KeyForCode`. */
  function CodeForKey(k: Key): int {
    match k
    case Left => 37
    case Up => 38
    case Right => 39
    case Down => 40
  }

  /** Every signal has its arrow key: decoding a signal's code gives it back,
      and decoding then encoding a mapped code gives the code back. */
  lemma KeyCodesRoundTrip(k: Key, code: int)
    ensures KeyForCode(CodeForKey(k)) == Some(k)
    ensures KeyForCode(code).Some? ==> CodeForKey(KeyForCode(code).value) == code
  {
  }

  /** Each scripted key owns a quarter of the draw range: the draw r selects
      `ScriptedKeys[i]` exactly when i/4 <= r < (i+1)/4. */
  lemma ScriptedKeyQuarters(r: real, i: nat)
    requires 0.0 <= r < 1.0 && i < 4
    ensures ScriptedKey(r) == ScriptedKeys[i] <==> i as real / 4.0 <= r < (i + 1) as real / 4.0
  {
    var v := r * 4.0;
    assert 0.0 <= v < 4.0;
    var n := ToInt32(v);
    assert n == Trunc(v);
    assert 0 <= n < 4;
    assert n as real <= v < n as real + 1.0;
    assert ScriptedKey(r) == ScriptedKeys[n];
    if n != i {
      assert ScriptedKeys[n] != ScriptedKeys[i];
      assert !(i as real <= v < i as real + 1.0);
    }
  }

  /** A toggle changes exactly the toggled signal, and toggling twice undoes it. */
  lemma ToggleChangesOneSignal(f: Flags, k: Key)
    ensures forall o :: f.Toggle(k).Get(o) != f.Get(o) <==> o == k
    ensures f.Toggle(k).Toggle(k) == f
  {
    var g := f.Toggle(k);
    assert g.Toggle(k).Get(k) == f.Get(k);
    match k
    case Up =>
    case Down =>
    case Left =>
    case Right =>
  }

  /** A controller; only the scripted kind has an `update` hook. */
  class Controller {
    const scripted: bool
    var flags: Flags

    constructor (scripted: bool)
      ensures this.scripted == scripted && flags == NoFlags
    {
      this.scripted := scripted;
      flags := NoFlags;
    }

    /** The keydown listener: an arrow key raises its signal. */
    method KeyDown(code: int)
      modifies this
      ensures flags == (match KeyForCode(code)
                        case Some(k) => old(flags).With(k, true)
                        case None => old(flags))
    {
      var k := KeyForCode(code);
      if k.Some? {
        flags := flags.With(k.value, true);
      }
    }

    /** The keyup listener: an arrow key lowers its signal. */
    method KeyUp(code: int)
      modifies this
      ensures flags == (match KeyForCode(code)
                        case Some(k) => old(flags).With(k, false)
                        case None => old(flags))
    {
      var k := KeyForCode(code);
      if k.Some? {
        flags := flags.With(k.value, false);
      }
    }

    /** `RngController.update`: flips the signal chosen by the draw r. */
    method Update(r: real)
      requires scripted && 0.0 <= r < 1.0
      modifies this
      ensures flags == old(flags).Toggle(ScriptedKey(r))
    {
      var k := ScriptedKey(r);
      flags := flags.With(k, !flags.Get(k));
    }
  }
}
