/** The flags an IO control sends for its port: a lookup in the control's
    option table combined with bitwise OR. The numeric values of the protocol's
    flag constants belong to the protocol library, so they are a parameter.
    A non-negative integer used as a flag word is the set of positions of its
    one bits: `|` is union, `&` is intersection and `0` is the empty set. */
module IoFlags {

  /** A flag word, as the set of its one-bit positions. */
  type Bits = set<nat>

  /** The options of the control's `type`, `pull` and `level` properties. */
  datatype IoType = Digital | Analog | Output
  datatype Pull = PullUp | PullDown | Floating
  datatype Level = On | Off

  /** The protocol's `OUTPUT`, `PULLUP`, `PULLDOWN` and `LEVEL` flags. */
  datatype FlagValues = FlagValues(output: Bits, pullup: Bits, pulldown: Bits, level: Bits)

  /** The state-setting message sent to the controller. */
  datatype StateAction = StateAction(port: int, flags: Bits)

  /** The keys of the control's option table: every option name of the
      three properties. */
  datatype ConfigKey =
    | DigitalKey | AnalogKey | OutputKey
    | PullUpKey | PullDownKey | FloatingKey
    | OnKey | OffKey

  function TypeKey(t: IoType): ConfigKey
  {
    match t
    case Digital => DigitalKey
    case Analog => AnalogKey
    case Output => OutputKey
  }

  function PullKey(p: Pull): ConfigKey
  {
    match p
    case PullUp => PullUpKey
    case PullDown => PullDownKey
    case Floating => FloatingKey
  }

  function LevelKey(l: Level): ConfigKey
  {
    match l
    case On => OnKey
    case Off => OffKey
  }

  /** The control's table from option name to flag word. */
  function Configs(f: FlagValues, k: ConfigKey): Bits
  {
    match k
    case DigitalKey => {}
    case AnalogKey => {}
    case OutputKey => f.output
    case PullUpKey => f.pullup
    case PullDownKey => f.pulldown
    case FloatingKey => {}
    case OnKey => f.level
    case OffKey => {}
  }

  /** The flag a pull option stands for. */
  function PullFlag(f: FlagValues, p: Pull): Bits
  {
    match p
    case PullUp => f.pullup
    case PullDown => f.pulldown
    case Floating => {}
  }

  /** The flags of the control: the type's entry, ORed with the level's entry
      for an output and with the pull's entry for an input. For an output
      this is `OUTPUT`, plus `LEVEL` when the level is on; for a digital or
      analog input it is the pull flag alone, whatever the level. */
  function Flags(f: FlagValues, t: IoType, p: Pull, l: Level): (flags: Bits)
    ensures t == Output ==> flags == f.output + (if l == On then f.level else {})
    ensures t != Output ==> flags == PullFlag(f, p)
  {
    var flags := Configs(f, TypeKey(t));
    flags + (if t == Output then Configs(f, LevelKey(l)) else Configs(f, PullKey(p)))
  }

  /** The message `update` sends for the control on `port`: for an output,
      `OUTPUT` with `LEVEL` when on; for an input, its pull flag alone. */
  function Update(f: FlagValues, port: int, t: IoType, p: Pull, l: Level): (a: StateAction)
    ensures a.port == port
    ensures t == Output ==> a.flags == f.output + (if l == On then f.level else {})
    ensures t != Output ==> a.flags == PullFlag(f, p)
  {
    StateAction(port, Flags(f, t, p, l))
  }

  /** The four protocol flags are non-zero and share no bit. */
  predicate Separate(f: FlagValues)
  {
    && f.output != {} && f.pullup != {} && f.pulldown != {} && f.level != {}
    && f.output !! f.pullup && f.output !! f.pulldown && f.output !! f.level
    && f.pullup !! f.pulldown && f.pullup !! f.level
    && f.pulldown !! f.level
  }

  /** With separate flags the sent word determines the settings that matter:
      whether the port is an output, the level of an output, and the pull of
      an input. */
  lemma FlagsDetermineSettings(f: FlagValues, t: IoType, p: Pull, l: Level)
    requires Separate(f)
    ensures Flags(f, t, p, l) * f.output != {} <==> t == Output
    ensures Flags(f, t, p, l) * f.level != {} <==> t == Output && l == On
    ensures Flags(f, t, p, l) * f.pullup != {} <==> t != Output && p == PullUp
    ensures Flags(f, t, p, l) * f.pulldown != {} <==> t != Output && p == PullDown
  {
    var flags := Flags(f, t, p, l);
    if t == Output {
      var b :| b in f.output;
      assert b in flags * f.output;
      if l == On {
        var c :| c in f.level;
        assert c in flags * f.level;
      }
    } else {
      match p
      case PullUp =>
        var b :| b in f.pullup;
        assert b in flags * f.pullup;
      case PullDown =>
        var b :| b in f.pulldown;
        assert b in flags * f.pulldown;
      case Floating =>
    }
  }

  /** An input's flags do not depend on its level, and an output's flags do
      not depend on its pull. */
  lemma IgnoredSettings(f: FlagValues, t: IoType, p: Pull, p': Pull, l: Level, l': Level)
    ensures t != Output ==> Flags(f, t, p, l) == Flags(f, t, p, l')
    ensures t == Output ==> Flags(f, t, p, l) == Flags(f, t, p', l)
  {
  }
}
