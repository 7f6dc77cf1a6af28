/**
 * src/config_gen.py: the schema check of parse_config over an INI file
 * already read into memory, and the sweep in main that writes one config
 * per combination of body radius, sense radius, count and movement speed.
 */
module ConfigGen {
  import opened Ascii

  datatype Option<T> = None | Some(value: T)

  /**
   * An INI file as configparser holds it after reading: the options of the
   * DEFAULT section, and the options of every other section by name.
   */
  datatype Config = Config(defaults: map<string, string>, sections: map<string, map<string, string>>)

  /** CONFIG_SECTIONS: the required sections, in order, each with its required options. */
  const ConfigSections: seq<(string, seq<string>)> := [
    ("general", ["name", "make_gif"]),
    ("paths", ["image_dir"]),
    ("env", ["env_size", "grid_size", "time_step_size", "epochs",
             "air_conductivity", "initial_temp", "ambient_temp"]),
    ("penguin", ["count", "body_radius", "sense_radius", "body_temp",
                 "low_death_threshold", "high_death_threshold", "low_move_threshold",
                 "high_move_threshold", "internal_conductivity",
                 "external_conductivity", "insulation_thickness", "density",
                 "movement_speed", "metabolism"])
  ]

  /** has_section: DEFAULT is not a section. */
  predicate HasSection(cfg: Config, section: string) {
    section in cfg.sections
  }

  /** has_option: the section must exist, and the option may come from it or from DEFAULT. */
  predicate HasOption(cfg: Config, section: string, option: string) {
    section in cfg.sections && (option in cfg.sections[section] || option in cfg.defaults)
  }

  /** Every section of the schema is present with every one of its options. */
  predicate Complete(cfg: Config, schema: seq<(string, seq<string>)>) {
    forall k :: 0 <= k < |schema| ==>
      HasSection(cfg, schema[k].0) && forall o :: o in schema[k].1 ==> HasOption(cfg, schema[k].0, o)
  }

  /** What parse_config reports before giving up. */
  datatype Missing = MissingSection(section: string) | MissingOption(section: string, option: string)

  /** The first option of `options`, in order, that the section lacks. */
  function FirstMissingOption(cfg: Config, section: string, options: seq<string>): (m: Option<string>)
    ensures m.None? <==> forall o :: o in options ==> HasOption(cfg, section, o)
    ensures m.Some? ==> m.value in options && !HasOption(cfg, section, m.value)
  {
    if options == [] then None
    else if !HasOption(cfg, section, options[0]) then Some(options[0])
    else FirstMissingOption(cfg, section, options[1..])
  }

  /**
   * The two nested loops of parse_config: the first absent section, or the
   * first absent option of a present section, in schema order.
   */
  function FirstMissing(cfg: Config, schema: seq<(string, seq<string>)>): (m: Option<Missing>)
    ensures m.None? <==> Complete(cfg, schema)
    ensures m.Some? && m.value.MissingSection? ==>
              (exists k :: 0 <= k < |schema| && schema[k].0 == m.value.section) && !HasSection(cfg, m.value.section)
    ensures m.Some? && m.value.MissingOption? ==>
              (exists k :: 0 <= k < |schema| && schema[k].0 == m.value.section && m.value.option in schema[k].1) &&
              HasSection(cfg, m.value.section) && !HasOption(cfg, m.value.section, m.value.option)
  {
    if schema == [] then None
    else if !HasSection(cfg, schema[0].0) then Some(MissingSection(schema[0].0))
    else
      match FirstMissingOption(cfg, schema[0].0, schema[0].1)
      case Some(o) => Some(MissingOption(schema[0].0, o))
      case None =>
        var rest := FirstMissing(cfg, schema[1..]);
        assert Complete(cfg, schema[1..]) ==> Complete(cfg, schema) by {
          if Complete(cfg, schema[1..]) {
            forall k | 1 <= k < |schema|
              ensures HasSection(cfg, schema[k].0) && forall o :: o in schema[k].1 ==> HasOption(cfg, schema[k].0, o)
            {
              assert schema[k] == schema[1..][k - 1];
            }
          }
        }
        assert rest.Some? ==> forall k :: 0 <= k < |schema| - 1 ==> schema[1..][k] == schema[k + 1];
        rest
  }

  /**
   * parse_config: None when the file does not exist or lacks a required
   * section or option; otherwise the configuration itself, unchanged.
   */
  function ParseConfig(fileExists: bool, cfg: Config): (r: Option<Config>)
    ensures r.Some? ==> r.value == cfg
    ensures r.Some? <==> fileExists && Complete(cfg, ConfigSections)
  {
    if !fileExists then None
    else if FirstMissing(cfg, ConfigSections).Some? then None
    else Some(cfg)
  }

  /** cfg2 holds every default, section and option of cfg, and possibly more. */
  predicate Extends(cfg2: Config, cfg: Config) {
    (forall o :: o in cfg.defaults ==> o in cfg2.defaults) &&
    (forall s :: s in cfg.sections ==> s in cfg2.sections && forall o :: o in cfg.sections[s] ==> o in cfg2.sections[s])
  }

  /** Extra sections and options never make parse_config reject a file it accepts. */
  lemma ExtraEntriesIgnored(cfg: Config, cfg2: Config, fileExists: bool)
    requires Extends(cfg2, cfg)
    ensures ParseConfig(fileExists, cfg).Some? ==> ParseConfig(fileExists, cfg2).Some?
  {
    if ParseConfig(fileExists, cfg).Some? {
      forall k | 0 <= k < |ConfigSections|
        ensures HasSection(cfg2, ConfigSections[k].0)
        ensures forall o :: o in ConfigSections[k].1 ==> HasOption(cfg2, ConfigSections[k].0, o)
      {
        assert HasSection(cfg, ConfigSections[k].0);
      }
    }
  }

  /** The value the section itself stores for an option (DEFAULT not consulted). */
  function Lookup(cfg: Config, section: string, option: string): Option<string> {
    if section in cfg.sections && option in cfg.sections[section] then Some(cfg.sections[section][option])
    else None
  }

  /** config[section][option] = value, for a section that exists. */
  function SetOption(cfg: Config, section: string, option: string, value: string): (r: Config)
    requires section in cfg.sections
    ensures r.defaults == cfg.defaults && r.sections.Keys == cfg.sections.Keys
    ensures forall s, o :: Lookup(r, s, o) == if s == section && o == option then Some(value) else Lookup(cfg, s, o)
    ensures forall s :: s in cfg.sections ==> cfg.sections[s].Keys <= r.sections[s].Keys
  {
    cfg.(sections := cfg.sections[section := cfg.sections[section][option := value]])
  }

  /** The sweep's lists of body radii, sense radii, counts and movement speeds. */
  const BodyRadii: seq<nat> := [1, 2, 4, 7]
  const SenseRadii: seq<nat> := [5, 10, 25, 50, 100]
  const Counts: seq<nat> := [16, 32, 64, 128, 256]
  const MovementSpeeds: seq<nat> := [1, 2, 5, 10, 20]

  datatype Params = Params(br: nat, sr: nat, c: nat, ms: nat)

  /** The combination of iteration (i, j, l, m) of the four nested loops, body radius outermost. */
  function ParamsOf(i: nat, j: nat, l: nat, m: nat): Params
    requires i < 4 && j < 5 && l < 5 && m < 5
  {
    Params(BodyRadii[i], SenseRadii[j], Counts[l], MovementSpeeds[m])
  }

  /** The position of iteration (i, j, l, m) in the order the loops run. */
  function Index(i: nat, j: nat, l: nat, m: nat): nat {
    i * 125 + j * 25 + l * 5 + m
  }

  /** A tag followed by str(n) and then the rest of the text. */
  function Field(tag: string, n: nat, rest: string): string {
    tag + NatToString(n) + rest
  }

  /** cfg_f_name: br{br}_sr{sr}_c{c}_ms{ms}.ini */
  function FileName(p: Params): string {
    Field("br", p.br, Field("_sr", p.sr, Field("_c", p.c, Field("_ms", p.ms, ".ini"))))
  }

  /** cfg_name: BR={br}, SR={sr}, C={c}, MS={ms} */
  function CfgName(p: Params): string {
    Field("BR=", p.br, Field(", SR=", p.sr, Field(", C=", p.c, Field(", MS=", p.ms, ""))))
  }

  /** The template with the five options the sweep overwrites. */
  function Override(cfg: Config, p: Params): (r: Config)
    requires "general" in cfg.sections && "penguin" in cfg.sections
  {
    var c1 := SetOption(cfg, "general", "name", CfgName(p));
    var c2 := SetOption(c1, "penguin", "count", NatToString(p.c));
    var c3 := SetOption(c2, "penguin", "body_radius", NatToString(p.br));
    var c4 := SetOption(c3, "penguin", "sense_radius", NatToString(p.sr));
    SetOption(c4, "penguin", "movement_speed", NatToString(p.ms))
  }

  /** The option the sweep writes for (section, option), if it is one of the five. */
  function Overridden(p: Params, section: string, option: string): Option<string> {
    if section == "general" && option == "name" then Some(CfgName(p))
    else if section == "penguin" && option == "count" then Some(NatToString(p.c))
    else if section == "penguin" && option == "body_radius" then Some(NatToString(p.br))
    else if section == "penguin" && option == "sense_radius" then Some(NatToString(p.sr))
    else if section == "penguin" && option == "movement_speed" then Some(NatToString(p.ms))
    else None
  }

  /**
   * The overwrite changes exactly general.name and penguin.count,
   * body_radius, sense_radius and movement_speed: every other option, every
   * default and the set of sections keep their template values, and the
   * result still passes the schema check.
   */
  lemma OverrideFrame(cfg: Config, p: Params)
    requires "general" in cfg.sections && "penguin" in cfg.sections
    ensures Override(cfg, p).defaults == cfg.defaults
    ensures Override(cfg, p).sections.Keys == cfg.sections.Keys
    ensures forall s, o :: Lookup(Override(cfg, p), s, o) ==
              if Overridden(p, s, o).Some? then Overridden(p, s, o) else Lookup(cfg, s, o)
    ensures ParseConfig(true, cfg).Some? ==> ParseConfig(true, Override(cfg, p)).Some?
  {
    var c1 := SetOption(cfg, "general", "name", CfgName(p));
    var c2 := SetOption(c1, "penguin", "count", NatToString(p.c));
    var c3 := SetOption(c2, "penguin", "body_radius", NatToString(p.br));
    var c4 := SetOption(c3, "penguin", "sense_radius", NatToString(p.sr));
    var r := SetOption(c4, "penguin", "movement_speed", NatToString(p.ms));
    assert r == Override(cfg, p);
    forall s, o
      ensures Lookup(r, s, o) == if Overridden(p, s, o).Some? then Overridden(p, s, o) else Lookup(cfg, s, o)
    {
      assert Lookup(c1, s, o) == if s == "general" && o == "name" then Some(CfgName(p)) else Lookup(cfg, s, o);
      assert Lookup(c2, s, o) == if s == "penguin" && o == "count" then Some(NatToString(p.c)) else Lookup(c1, s, o);
      assert Lookup(c3, s, o) == if s == "penguin" && o == "body_radius" then Some(NatToString(p.br)) else Lookup(c2, s, o);
      assert Lookup(c4, s, o) == if s == "penguin" && o == "sense_radius" then Some(NatToString(p.sr)) else Lookup(c3, s, o);
    }
    assert Extends(r, cfg) by {
      forall s | s in cfg.sections
        ensures s in r.sections && cfg.sections[s].Keys <= r.sections[s].Keys
      {
        assert cfg.sections[s].Keys <= c1.sections[s].Keys <= c2.sections[s].Keys;
        assert c2.sections[s].Keys <= c3.sections[s].Keys <= c4.sections[s].Keys <= r.sections[s].Keys;
      }
    }
    ExtraEntriesIgnored(cfg, r, true);
  }

  /** A tag, a number and a rest that starts with a non-digit can be read back. */
  lemma FieldInjective(tag: string, m: nat, r1: string, n: nat, r2: string)
    requires r1 == [] || !IsDigit(r1[0])
    requires r2 == [] || !IsDigit(r2[0])
    ensures Field(tag, m, r1) == Field(tag, n, r2) ==> m == n && r1 == r2
  {
    if Field(tag, m, r1) == Field(tag, n, r2) {
      var s1, s2 := Field(tag, m, r1), Field(tag, n, r2);
      assert s1[|tag|..] == NatToString(m) + r1;
      assert s2[|tag|..] == NatToString(n) + r2;
      DigitRunsSplit(NatToString(m), r1, NatToString(n), r2);
      NatToStringInjective(m, n);
    }
  }

  /** Different parameter tuples get different file names. */
  lemma FileNameInjective(p: Params, q: Params)
    ensures FileName(p) == FileName(q) ==> p == q
  {
    var t1, t2 := Field("_ms", p.ms, ".ini"), Field("_ms", q.ms, ".ini");
    var u1, u2 := Field("_c", p.c, t1), Field("_c", q.c, t2);
    var v1, v2 := Field("_sr", p.sr, u1), Field("_sr", q.sr, u2);
    FieldInjective("br", p.br, v1, q.br, v2);
    FieldInjective("_sr", p.sr, u1, q.sr, u2);
    FieldInjective("_c", p.c, t1, q.c, t2);
    FieldInjective("_ms", p.ms, ".ini", q.ms, ".ini");
  }

  /** Euclidean division by 5 is determined by quotient and remainder. */
  lemma DivMod5(k: nat, q: nat, r: nat)
    requires k == 5 * q + r && r < 5
    ensures k / 5 == q && k % 5 == r
  {
  }

  /** The sweep lists hold no value twice. */
  lemma SweepListsInjective()
    ensures forall a, b :: 0 <= a < b < |BodyRadii| ==> BodyRadii[a] != BodyRadii[b]
    ensures forall a, b :: 0 <= a < b < |SenseRadii| ==> SenseRadii[a] != SenseRadii[b]
    ensures forall a, b :: 0 <= a < b < |Counts| ==> Counts[a] != Counts[b]
    ensures forall a, b :: 0 <= a < b < |MovementSpeeds| ==> MovementSpeeds[a] != MovementSpeeds[b]
  {
  }

  /** The base-5 digits of the position of iteration (i, j, l, m) are i, j, l and m. */
  lemma IndexDigits(i: nat, j: nat, l: nat, m: nat)
    requires i < 4 && j < 5 && l < 5 && m < 5
    ensures Index(i, j, l, m) < 500
    ensures Index(i, j, l, m) / 5 == i * 25 + j * 5 + l && Index(i, j, l, m) % 5 == m
    ensures (i * 25 + j * 5 + l) / 5 == i * 5 + j && (i * 25 + j * 5 + l) % 5 == l
    ensures (i * 5 + j) / 5 == i && (i * 5 + j) % 5 == j
  {
    DivMod5(Index(i, j, l, m), i * 25 + j * 5 + l, m);
    DivMod5(i * 25 + j * 5 + l, i * 5 + j, l);
    DivMod5(i * 5 + j, i, j);
  }

  /** Every one of the 500 positions is the position of exactly one iteration. */
  lemma IndexOf(k: nat) returns (i: nat, j: nat, l: nat, m: nat)
    requires k < 500
    ensures i < 4 && j < 5 && l < 5 && m < 5 && Index(i, j, l, m) == k
    ensures forall i', j', l', m' :: i' < 4 && j' < 5 && l' < 5 && m' < 5 && Index(i', j', l', m') == k ==>
              i' == i && j' == j && l' == l && m' == m
  {
    i, j, l, m := k / 5 / 5 / 5, k / 5 / 5 % 5, k / 5 % 5, k % 5;
    forall i', j', l', m' | i' < 4 && j' < 5 && l' < 5 && m' < 5 && Index(i', j', l', m') == k
      ensures i' == i && j' == j && l' == l && m' == m
    {
      IndexDigits(i', j', l', m');
    }
  }

  /** Different iterations write under different file names. */
  lemma FileNamesDistinct(i: nat, j: nat, l: nat, m: nat, i': nat, j': nat, l': nat, m': nat)
    requires i < 4 && j < 5 && l < 5 && m < 5
    requires i' < 4 && j' < 5 && l' < 5 && m' < 5
    requires (i, j, l, m) != (i', j', l', m')
    ensures FileName(ParamsOf(i, j, l, m)) != FileName(ParamsOf(i', j', l', m'))
  {
    SweepListsInjective();
    FileNameInjective(ParamsOf(i, j, l, m), ParamsOf(i', j', l', m'));
  }

  /** What iteration (i, j, l, m) writes: its file name and the overwritten template. */
  function Entry(template: Config, i: nat, j: nat, l: nat, m: nat): (string, Config)
    requires i < 4 && j < 5 && l < 5 && m < 5
    requires "general" in template.sections && "penguin" in template.sections
  {
    (FileName(ParamsOf(i, j, l, m)), Override(template, ParamsOf(i, j, l, m)))
  }

  /** The sweep's writes, in the order of GenerateConfigs: one per iteration, at its position. */
  predicate IsSweep(template: Config, written: seq<(string, Config)>)
    requires "general" in template.sections && "penguin" in template.sections
  {
    |written| == 500 &&
    forall i, j, l, m :: i < 4 && j < 5 && l < 5 && m < 5 ==>
      Index(i, j, l, m) < 500 && written[Index(i, j, l, m)] == Entry(template, i, j, l, m)
  }

  /**
   * No two of the 500 writes go to the same file, so none overwrites another,
   * and every written file still passes the schema check.
   */
  lemma SweepWritesDistinctValidFiles(template: Config, written: seq<(string, Config)>)
    requires ParseConfig(true, template).Some?
    requires "general" in template.sections && "penguin" in template.sections
    requires IsSweep(template, written)
    ensures forall k1, k2 :: 0 <= k1 < k2 < |written| ==> written[k1].0 != written[k2].0
    ensures forall k :: 0 <= k < |written| ==> ParseConfig(true, written[k].1).Some?
  {
    forall k1, k2 | 0 <= k1 < k2 < |written|
      ensures written[k1].0 != written[k2].0
    {
      var i, j, l, m := IndexOf(k1);
      var i', j', l', m' := IndexOf(k2);
      FileNamesDistinct(i, j, l, m, i', j', l', m');
    }
    forall k | 0 <= k < |written|
      ensures ParseConfig(true, written[k].1).Some?
    {
      var i, j, l, m := IndexOf(k);
      OverrideFrame(template, ParamsOf(i, j, l, m));
    }
  }

  lemma CompleteHasOverriddenSections(cfg: Config)
    requires Complete(cfg, ConfigSections)
    ensures "general" in cfg.sections && "penguin" in cfg.sections
  {
    assert HasSection(cfg, ConfigSections[0].0);
    assert HasSection(cfg, ConfigSections[3].0);
  }

  /**
   * main: for every combination, re-parse the template; if that fails, leave
   * the innermost loop; otherwise overwrite the five options and write the
   * result under its file name. The writes are returned as (name, contents)
   * in the order they happen.
   */
  method GenerateConfigs(templateExists: bool, template: Config) returns (written: seq<(string, Config)>)
    ensures ParseConfig(templateExists, template).None? ==> written == []
    ensures ParseConfig(templateExists, template).Some? ==>
              "general" in template.sections && "penguin" in template.sections && IsSweep(template, written)
  {
    var ok := ParseConfig(templateExists, template).Some?;
    if ok {
      CompleteHasOverriddenSections(template);
    }
    written := [];
    for i := 0 to |BodyRadii|
      invariant !ok ==> written == []
      invariant ok ==> |written| == i * 125
      invariant ok ==> Done(template, written)
    {
      for j := 0 to |SenseRadii|
        invariant !ok ==> written == []
        invariant ok ==> |written| == i * 125 + j * 25
        invariant ok ==> Done(template, written)
      {
        for l := 0 to |Counts|
          invariant !ok ==> written == []
          invariant ok ==> |written| == i * 125 + j * 25 + l * 5
          invariant ok ==> Done(template, written)
        {
          for m := 0 to |MovementSpeeds|
            invariant !ok ==> written == []
            invariant ok ==> |written| == i * 125 + j * 25 + l * 5 + m
            invariant ok ==> Done(template, written)
          {
            var p := Params(BodyRadii[i], SenseRadii[j], Counts[l], MovementSpeeds[m]);
            var cfgFileName := FileName(p);
            var parsed := ParseConfig(templateExists, template);
            if parsed.None? {
              break;
            }
            var config := Override(parsed.value, p);
            DoneAppend(template, written, i, j, l, m, (cfgFileName, config));
            written := written + [(cfgFileName, config)];
          }
        }
      }
    }
    if ok {
      DoneAll(template, written);
    }
  }

  /** Every iteration whose position lies below |written| has written its entry there. */
  predicate Done(template: Config, written: seq<(string, Config)>)
    requires "general" in template.sections && "penguin" in template.sections
  {
    forall i, j, l, m :: i < 4 && j < 5 && l < 5 && m < 5 && Index(i, j, l, m) < |written| ==>
      written[Index(i, j, l, m)] == Entry(template, i, j, l, m)
  }

  lemma DoneAppend(template: Config, written: seq<(string, Config)>, i: nat, j: nat, l: nat, m: nat, e: (string, Config))
    requires "general" in template.sections && "penguin" in template.sections
    requires i < 4 && j < 5 && l < 5 && m < 5
    requires Done(template, written) && |written| == Index(i, j, l, m)
    requires e == Entry(template, i, j, l, m)
    ensures Done(template, written + [e])
  {
    forall i', j', l', m' | i' < 4 && j' < 5 && l' < 5 && m' < 5 && Index(i', j', l', m') < |written| + 1
      ensures (written + [e])[Index(i', j', l', m')] == Entry(template, i', j', l', m')
    {
      if Index(i', j', l', m') == |written| {
        var a, b, c, d := IndexOf(|written|);
      }
    }
  }

  lemma DoneAll(template: Config, written: seq<(string, Config)>)
    requires "general" in template.sections && "penguin" in template.sections
    requires Done(template, written) && |written| == 500
    ensures IsSweep(template, written)
  {
    forall i, j, l, m | i < 4 && j < 5 && l < 5 && m < 5
      ensures Index(i, j, l, m) < 500
    {
      IndexDigits(i, j, l, m);
    }
  }
}
