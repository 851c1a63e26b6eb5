/** The HUD's string tables and `{name}` templates (the i18n module): a
    lookup per language and a single left-to-right substitution pass. */
module I18n {
  import opened Wrappers

  /** Values passed to a template, already converted with `String(...)`. */
  type Vars = map<string, string>

  // ---------------------------------------------------------------------
  // Templates

  /** The characters of the pattern class `\w`: ASCII letters, digits and
      the underscore. */
  predicate IsWordChar(c: char) {
    ('a' <= c <= 'z') || ('A' <= c <= 'Z') || ('0' <= c <= '9') || c == '_'
  }

  /** The length of the longest run of word characters `s` starts with. */
  function WordRun(s: string): (n: nat)
    ensures n <= |s|
    ensures forall k :: 0 <= k < n ==> IsWordChar(s[k])
    ensures n < |s| ==> !IsWordChar(s[n])
  {
    if |s| == 0 || !IsWordChar(s[0]) then 0 else 1 + WordRun(s[1..])
  }

  /** A placeholder `{name}` at the front of `s`, if there is one: an opening
      brace, one or more word characters and a closing brace. Since the word
      run is greedy and a closing brace is not a word character, the run must
      end right at the brace. */
  function HoleAt(s: string): (r: Option<string>)
    ensures r.Some? ==> 2 + |r.value| <= |s| && s[..2 + |r.value|] == "{" + r.value + "}"
    ensures r.Some? ==> |r.value| > 0 && forall k :: 0 <= k < |r.value| ==> IsWordChar(r.value[k])
    ensures |s| > 0 && s[0] != '{' ==> r.None?
  {
    if |s| == 0 || s[0] != '{' then None
    else
      var n := WordRun(s[1..]);
      if n > 0 && 1 + n < |s| && s[1 + n] == '}' then
        assert s[..2 + n] == "{" + s[1..1 + n] + "}";
        Some(s[1..1 + n])
      else None
  }

  /** A placeholder whose variable is not given becomes the empty string. */
  function Value(vars: Vars, name: string): string {
    if name in vars then vars[name] else ""
  }

  /** `format(template, vars)`: every placeholder replaced by its value, in
      one pass from left to right; the text in between is copied. That is,
      the template's pieces rendered one by one: each placeholder becomes its
      value, or nothing when the variable is missing. A value is put in
      verbatim and never scanned again, so braces inside it survive. */
  function Format(s: string, vars: Vars): (r: string)
    ensures r == Render(Parse(s), vars)
    decreases |s|
  {
    if |s| == 0 then ""
    else
      match HoleAt(s)
      case Some(name) =>
        var rest := s[2 + |name|..];
        ParseHole(s, name);
        RenderFirst(Hole(name), Parse(rest), vars);
        Value(vars, name) + Format(rest, vars)
      case None =>
        ParseText(s);
        RenderFirst(Text(s[0]), Parse(s[1..]), vars);
        [s[0]] + Format(s[1..], vars)
  }

  /** A template split into copied characters and placeholders. */
  datatype Piece = Text(c: char) | Hole(name: string)

  /** The pieces the substitution pass sees. */
  function Parse(s: string): (ps: seq<Piece>)
    ensures forall k :: 0 <= k < |ps| && ps[k].Hole? ==> |ps[k].name| > 0
    decreases |s|
  {
    if |s| == 0 then []
    else
      match HoleAt(s)
      case Some(name) => [Hole(name)] + Parse(s[2 + |name|..])
      case None => [Text(s[0])] + Parse(s[1..])
  }

  /** The template the pieces were read from. */
  function Unparse(ps: seq<Piece>): string {
    if |ps| == 0 then ""
    else
      match ps[0]
      case Text(c) => [c] + Unparse(ps[1..])
      case Hole(name) => "{" + name + "}" + Unparse(ps[1..])
  }

  /** The pieces with every placeholder replaced by its value. */
  function Render(ps: seq<Piece>, vars: Vars): string {
    if |ps| == 0 then ""
    else
      match ps[0]
      case Text(c) => [c] + Render(ps[1..], vars)
      case Hole(name) => Value(vars, name) + Render(ps[1..], vars)
  }

  /** Splitting a template into pieces loses nothing. */
  lemma {:induction false} ParseUnparse(s: string)
    ensures Unparse(Parse(s)) == s
    decreases |s|
  {
    if |s| > 0 {
      match HoleAt(s)
      case Some(name) =>
        ParseUnparse(s[2 + |name|..]);
        UnparseHole(s, name);
      case None =>
        ParseUnparse(s[1..]);
        UnparseText(s);
    }
  }

  /** The step of `ParseUnparse` at a placeholder. */
  lemma UnparseHole(s: string, name: string)
    requires HoleAt(s) == Some(name)
    requires Unparse(Parse(s[2 + |name|..])) == s[2 + |name|..]
    ensures Unparse(Parse(s)) == s
  {
    var n := 2 + |name|;
    var head := "{" + name + "}";
    ParseHole(s, name);
    UnparseHoleFirst(name, Parse(s[n..]));
    assert Unparse(Parse(s)) == head + s[n..];
    assert s[..n] == head;
    assert s == s[..n] + s[n..];
  }

  /** A template that starts with a placeholder parses to that placeholder
      followed by the pieces of the rest. */
  lemma ParseHole(s: string, name: string)
    requires HoleAt(s) == Some(name)
    ensures Parse(s) == [Hole(name)] + Parse(s[2 + |name|..])
  {
  }

  /** A placeholder piece is written back in braces. */
  lemma UnparseHoleFirst(name: string, ps: seq<Piece>)
    ensures Unparse([Hole(name)] + ps) == "{" + name + "}" + Unparse(ps)
  {
    assert ([Hole(name)] + ps)[1..] == ps;
  }

  /** The step of `ParseUnparse` at a copied character. */
  lemma UnparseText(s: string)
    requires |s| > 0 && HoleAt(s).None?
    requires Unparse(Parse(s[1..])) == s[1..]
    ensures Unparse(Parse(s)) == s
  {
    assert Parse(s) == [Text(s[0])] + Parse(s[1..]);
    assert Unparse(Parse(s)) == [s[0]] + Unparse(Parse(s[1..]));
    assert s == [s[0]] + s[1..];
  }

  /** One piece at the front renders on its own. */
  lemma RenderFirst(p: Piece, ps: seq<Piece>, vars: Vars)
    ensures Render([p] + ps, vars) == (if p.Text? then [p.c] else Value(vars, p.name)) + Render(ps, vars)
  {
    assert ([p] + ps)[1..] == ps;
  }

  /** A template that does not start with a placeholder parses to its first
      character followed by the pieces of the rest. */
  lemma ParseText(s: string)
    requires |s| > 0 && HoleAt(s).None?
    ensures Parse(s) == [Text(s[0])] + Parse(s[1..])
  {
  }

  /** A template without an opening brace comes back unchanged. */
  lemma {:induction false} NoBraceUnchanged(s: string, vars: Vars)
    requires forall k :: 0 <= k < |s| ==> s[k] != '{'
    ensures Format(s, vars) == s
    decreases |s|
  {
    if |s| > 0 {
      NoBraceUnchanged(s[1..], vars);
      assert s == [s[0]] + s[1..];
    }
  }

  /** A placeholder at the front becomes its value, or nothing when the
      variable is missing, and the rest is formatted on its own. */
  lemma PlaceholderThen(name: string, rest: string, vars: Vars)
    requires |name| > 0 && forall k :: 0 <= k < |name| ==> IsWordChar(name[k])
    ensures Format("{" + name + "}" + rest, vars) == Value(vars, name) + Format(rest, vars)
  {
    var s := "{" + name + "}" + rest;
    assert s[1..] == name + ("}" + rest);
    WordRunStops(name, "}" + rest);
    assert s[1..1 + |name|] == name;
    assert s[2 + |name|..] == rest;
  }

  /** The word run of a word followed by a non-word character is the word. */
  lemma {:induction false} WordRunStops(w: string, rest: string)
    requires forall k :: 0 <= k < |w| ==> IsWordChar(w[k])
    requires |rest| > 0 && !IsWordChar(rest[0])
    ensures WordRun(w + rest) == |w|
    decreases |w|
  {
    if |w| > 0 {
      assert (w + rest)[1..] == w[1..] + rest;
      WordRunStops(w[1..], rest);
    } else {
      assert w + rest == rest;
    }
  }

  /** Braces around something that is not a word are copied: `{}` and
      `{a b}` are text. */
  lemma EmptyBracesKept(vars: Vars)
    ensures Format("{}", vars) == "{}"
  {
    assert HoleAt("{}") == None;
    assert "{}"[1..] == "}";
    assert HoleAt("}") == None;
    assert "}"[1..] == [];
  }

  // ---------------------------------------------------------------------
  // Tables

  /** The English strings. */
  const English: map<string, string> := map[
    "title" := "PlanSpace: Flight Trial",
    "missionTitle" := "Mission",
    "radar" := "Radar",
    "map2d" := "Map: 2D",
    "map3d" := "Map: 3D",
    "mission" := "Pass through {total} gates",
    "status" := "Gates: {passed}/{total}  Hull: {hp}",
    "weapon" := "Weapon: {weapon}  Lock: {lock}",
    "weaponGun" := "GUN",
    "weaponMissile" := "MISSILE",
    "weaponSwitched" := "Weapon: {weapon}",
    "lockNone" := "None",
    "lockProgress" := "{percent}%",
    "lockReady" := "Locked",
    "lockRange" := "LOCK RANGE {range}m",
    "targetRange" := "TARGET {range}m",
    "level" := "Level {level}",
    "sideMission" := "Side: Clear gates in {time}s",
    "sideComplete" := "Side: Completed",
    "sideFailed" := "Side: Failed",
    "levelStart" := "Level {level} start",
    "levelClear" := "Level {level} clear",
    "menuTitle" := "PlanSpace Flight",
    "menuSubtitle" := "Select Mission",
    "level1Title" := "Trial Run",
    "level1Desc" := "5 enemies, low aggression",
    "level2Title" := "Skirmish",
    "level2Desc" := "8 enemies, mid aggression",
    "level3Title" := "Siege",
    "level3Desc" := "12 enemies, high aggression",
    "menuConfirm" := "Confirm",
    "menuConfirmLevel" := "Start Level {level}",
    "timer" := "Time: {time}",
    "timerStopped" := "Final Time: {time}",
    "promptName" := "Enter your name",
    "leaderboardTitle" := "Leaderboard (Top 15)",
    "leaderboardEmpty" := "No records yet",
    "controls" := "W/S throttle  A/D yaw  Numpad 8/5 pitch  Numpad 4/6 roll  Q target  E weapon  Space fire  R reset",
    "gameover" := "Hull breached. Press R to restart"
  ]

  /** The Chinese strings. */
  const Chinese: map<string, string> := map[
    "title" := "PlanSpace: 飞行试炼",
    "missionTitle" := "任务",
    "radar" := "雷达",
    "map2d" := "地图：2D",
    "map3d" := "地图：3D",
    "mission" := "穿过 {total} 个航道门",
    "status" := "航道门: {passed}/{total}  机体: {hp}",
    "weapon" := "武器: {weapon}  锁定: {lock}",
    "weaponGun" := "机炮",
    "weaponMissile" := "导弹",
    "weaponSwitched" := "武器：{weapon}",
    "lockNone" := "无",
    "lockProgress" := "{percent}%",
    "lockReady" := "已锁定",
    "lockRange" := "锁定范围 {range}m",
    "targetRange" := "目标 {range}m",
    "level" := "关卡 {level}",
    "sideMission" := "支线：{time}s 内穿过全部门",
    "sideComplete" := "支线：完成",
    "sideFailed" := "支线：失败",
    "levelStart" := "关卡 {level} 开始",
    "levelClear" := "关卡 {level} 完成",
    "menuTitle" := "PlanSpace 飞行任务",
    "menuSubtitle" := "选择关卡",
    "level1Title" := "试飞",
    "level1Desc" := "5 个敌人，低强度",
    "level2Title" := "遭遇战",
    "level2Desc" := "8 个敌人，中强度",
    "level3Title" := "围攻",
    "level3Desc" := "12 个敌人，高强度",
    "menuConfirm" := "确认",
    "menuConfirmLevel" := "开始关卡 {level}",
    "timer" := "计时: {time}",
    "timerStopped" := "最终时间: {time}",
    "promptName" := "请输入你的名字",
    "leaderboardTitle" := "排行榜（前15）",
    "leaderboardEmpty" := "暂无记录",
    "controls" := "W/S 速度  A/D 偏航  小键盘8/5 俯仰  小键盘4/6 横滚  Q 切目标  E 切武器  空格 开火  R 重置",
    "gameover" := "机体受损，按 R 重新开始"
  ]

  /** The tables by language code. */
  const Tables: map<string, map<string, string>> := map["en" := English, "zh" := Chinese]

  /** `setLanguage(next)`: a known language code is taken, anything else
      falls back to English. */
  function SetLanguage(next: string): (lang: string)
    ensures lang in Tables
    ensures next in Tables ==> lang == next
    ensures next !in Tables ==> lang == "en"
  {
    if next in Tables then next else "en"
  }

  /** `t(key, vars)`: the template for `key` in the current language, or the
      empty string when the table has no such key, then formatted. */
  function T(lang: string, key: string, vars: Vars): (r: string)
    requires lang in Tables
    ensures key in Tables[lang] ==> r == Render(Parse(Tables[lang][key]), vars)
    ensures key !in Tables[lang] ==> r == ""
  {
    var table := Tables[lang];
    Format(if key in table then table[key] else "", vars)
  }

  /** Both languages translate the same keys. */
  lemma SameKeys()
    ensures English.Keys == Chinese.Keys
  {
  }

  /** The lock and weapon labels the HUD shows are in both tables. */
  lemma HudKeysTranslated()
    ensures forall key :: key in ["lockNone", "lockProgress", "lockReady", "weaponGun", "weaponMissile"] ==>
      key in English && key in Chinese
  {
  }

  /** The lock progress line reads the percentage followed by a percent sign
      in either language. */
  lemma LockProgressText(lang: string, percent: string)
    requires lang in Tables
    ensures T(lang, "lockProgress", map["percent" := percent]) == percent + "%"
  {
    LockProgressTemplate(lang);
    PercentFormatted(percent);
  }

  /** Both tables hold the same lock progress template. */
  lemma LockProgressTemplate(lang: string)
    requires lang in Tables
    ensures "lockProgress" in Tables[lang] && Tables[lang]["lockProgress"] == "{percent}%"
  {
    assert Tables.Keys == {"en", "zh"};
    if lang == "en" {
      assert Tables[lang] == English;
      EnglishLockProgress();
    } else {
      assert lang == "zh" && Tables[lang] == Chinese;
      ChineseLockProgress();
    }
  }

  lemma EnglishLockProgress()
    ensures "lockProgress" in English && English["lockProgress"] == "{percent}%"
  {
  }

  lemma ChineseLockProgress()
    ensures "lockProgress" in Chinese && Chinese["lockProgress"] == "{percent}%"
  {
  }

  lemma PercentFormatted(percent: string)
    ensures Format("{percent}%", map["percent" := percent]) == percent + "%"
  {
    assert "{percent}%" == "{" + "percent" + "}" + "%";
    PlaceholderThen("percent", "%", map["percent" := percent]);
    NoBraceUnchanged("%", map["percent" := percent]);
  }
}
