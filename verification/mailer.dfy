/** The alert mail (services/mailer.py): reading the SMTP settings from the
    environment, the recipient list, and the numbers shown in each row of
    the alert table. Only the numeric value of each cell is modelled, not
    its text; delivery over SMTP is outside the model. */
module Mailer {
  import opened Wrappers
  import opened PyText
  import opened PyValue
  import opened Sequences

  /** The process environment. */
  type Env = map<string, string>

  /** `os.getenv(key, default)`. */
  function GetEnv(env: Env, key: string, default: string): string {
    if key in env then env[key] else default
  }

  /** The words `_env_bool` accepts as true, compared after lower-casing. */
  predicate TrueWord(w: string) {
    w == "1" || w == "true" || w == "yes" || w == "y"
  }

  /** `_env_bool(key, default)`: the variable, or `str(default)` when it is
      unset, lower-cased and looked up among the true words. */
  predicate EnvBool(env: Env, key: string, default: bool) {
    TrueWord(Lower(GetEnv(env, key, if default then "True" else "False")))
  }

  /** An unset variable reads as its default. */
  lemma EnvBoolDefault(env: Env, key: string, default: bool)
    requires key !in env
    ensures EnvBool(env, key, default) == default
  {
    if default {
      assert Lower("True") == "true";
    } else {
      assert Lower("False") == "false";
    }
  }

  lemma LowerIdempotent(s: string)
    ensures Lower(Lower(s)) == Lower(s)
  {
  }

  /** Letter case does not matter: a value and its lower-cased form read the
      same; "YES" and "yes" are both true. */
  lemma EnvBoolIgnoresCase(env: Env, key: string, default: bool, v: string)
    ensures EnvBool(env[key := v], key, default) == EnvBool(env[key := Lower(v)], key, default)
  {
    LowerIdempotent(v);
  }

  /** `v is None or v == ""`: the cell is left empty. */
  predicate Blank(v: Value) {
    v == Nil || v == Str("")
  }

  /** `float(v)` after the blank check; `None` stands for the empty cell
      that both the blank check and a failing `float()` produce. */
  function Parsed(v: Value): (r: Option<Double>)
    ensures r.None? <==> Blank(v) || ToFloat(v).None?
    ensures r.Some? ==> r == ToFloat(v)
  {
    if Blank(v) then None else ToFloat(v)
  }

  /** The scale correction of `_fmt_prob_pct`: a fraction in [0, 1] becomes
      a percentage, a value in (100, 10000] that was multiplied by 100 once
      too often is divided back, anything else is kept. */
  function ProbScale(x: Double): (y: Double)
    ensures x.Finite? && 0.0 <= x.x <= 1.0 ==> y == Finite(x.x * 100.0)
    ensures x.Finite? && 100.0 < x.x <= 10000.0 ==> y == Finite(x.x / 100.0)
    ensures !x.Finite? || x.x < 0.0 || (1.0 < x.x <= 100.0) || x.x > 10000.0 ==> y == x
  {
    if AtLeast(x, Finite(0.0)) && AtMost(x, Finite(1.0)) then Finite(x.x * 100.0)
    else if Less(Finite(100.0), x) && AtMost(x, Finite(10000.0)) then Finite(x.x / 100.0)
    else x
  }

  /** `r` has at most two decimals: a whole number of hundredths. */
  predicate WholeCents(r: real) {
    (r * 100.0).Floor as real == r * 100.0
  }

  /** `Decimal(x).quantize(Decimal("0.00"), ROUND_DOWN)` for `x >= 0`:
      the largest multiple of 0.01 not above `x`. */
  function TruncCents(x: real): (r: real)
    requires x >= 0.0
    ensures r <= x < r + 0.01
    ensures 0.0 <= r && WholeCents(r)
  {
    var n := (x * 100.0).Floor;
    var r := n as real / 100.0;
    assert r * 100.0 == n as real;
    r
  }

  /** The number `_fmt_prob_pct` shows, or `None` for the empty cell. */
  function FmtProbPct(v: Value): (r: Option<real>)
    ensures r.None? <==> Blank(v) || ToFloat(v).None?
    ensures r.Some? ==> 0.0 <= r.value <= 100.0
    ensures r.Some? ==> WholeCents(r.value)
  {
    var x := Parsed(v);
    if x.None? then None else Some(ShownPercent(x.value))
  }

  /** The percentage shown for a parsed number: rescaled, clamped to
      [0, 100] and cut to whole cents. */
  function ShownPercent(x: Double): (r: real)
    ensures 0.0 <= r <= 100.0
    ensures WholeCents(r)
    ensures r <= Clamp100(ProbScale(x)) < r + 0.01
  {
    TruncCents(Clamp100(ProbScale(x)))
  }

  /** The three scales `_fmt_prob_pct` accepts show the same percentage,
      cut (never rounded up) to two decimals: a fraction `p`, the percent
      `100 p`, and `10000 p` when that is above 100. */
  lemma FmtProbPctScales(p: real)
    requires 0.0 <= p <= 1.0
    ensures var shown := FmtProbPct(Float(Finite(p))).value;
      shown <= p * 100.0 < shown + 0.01
    ensures p * 100.0 > 1.0 ==>
      FmtProbPct(Float(Finite(p * 100.0))) == FmtProbPct(Float(Finite(p)))
    ensures p * 10000.0 > 100.0 ==>
      FmtProbPct(Float(Finite(p * 10000.0))) == FmtProbPct(Float(Finite(p)))
  {
    assert p * 10000.0 / 100.0 == p * 100.0;
  }

  /** Out-of-range values end at the bounds: negatives and -inf show 0,
      values above 10000, +inf and NaN show 100. */
  lemma FmtProbPctOutOfRange(d: Double)
    requires d == NaN || d == PosInf || d == NegInf || (d.Finite? && (d.x < 0.0 || d.x > 10000.0))
    ensures FmtProbPct(Float(d)) == Some(if d == NegInf || (d.Finite? && d.x < 0.0) then 0.0 else 100.0)
  {
  }

  /** The number `_fmt_ratio_pct_auto` shows: values in [-1.5, 1.5] are
      read as fractions and multiplied by 100, others are kept; nothing is
      clamped, so infinities and NaN pass through. */
  function FmtRatioPctAuto(v: Value): (r: Option<Double>)
    ensures r.None? <==> Blank(v) || ToFloat(v).None?
    ensures r.Some? ==> (r.value.Finite? <==> Parsed(v).value.Finite?)
    ensures r.Some? && Parsed(v).value.Finite? ==>
      var x := Parsed(v).value.x;
      r.value.x == (if -1.5 <= x <= 1.5 then x * 100.0 else x)
  {
    match Parsed(v)
    case None => None
    case Some(x) =>
      if AtLeast(x, Finite(-1.5)) && AtMost(x, Finite(1.5)) then Some(Finite(x.x * 100.0)) else Some(x)
  }

  /** `_fmt_num`: the parsed number, unchanged. */
  function FmtNum(v: Value): (r: Option<Double>)
    ensures r.None? <==> Blank(v) || ToFloat(v).None?
    ensures r.Some? ==> r == ToFloat(v)
  {
    Parsed(v)
  }

  /** The ratio formatter is the plain number formatter with one rescale:
      both leave the same cells empty, a finite number in [-1.5, 1.5] is
      multiplied by 100, and every other number, infinities and NaN
      included, is shown as `_fmt_num` shows it. */
  lemma RatioIsScaledNum(v: Value)
    ensures FmtRatioPctAuto(v).None? <==> FmtNum(v).None?
    ensures FmtNum(v).Some? && FmtNum(v).value.Finite? ==>
              var x := FmtNum(v).value.x;
              FmtRatioPctAuto(v) == Some(Finite(if -1.5 <= x <= 1.5 then x * 100.0 else x))
    ensures FmtNum(v).Some? && !FmtNum(v).value.Finite? ==> FmtRatioPctAuto(v) == FmtNum(v)
  {
  }

  /** The scale rules of the two formatters disagree on (1, 1.5]: 1.2 is a
      ratio of 120% but a probability of 1.2%. */
  lemma RatioAndProbDisagree()
    ensures FmtRatioPctAuto(Float(Finite(1.2))) == Some(Finite(120.0))
    ensures FmtProbPct(Float(Finite(1.2))) == Some(1.2)
  {
  }

  /** An address as the recipient list keeps it: not empty and not
      starting or ending with whitespace. */
  predicate CleanAddress(a: string) {
    a != [] && !IsSpace(a[0]) && !IsSpace(a[|a| - 1])
  }

  /** Every part, stripped. */
  function StrippedParts(parts: seq<string>): (ss: seq<string>)
    ensures |ss| == |parts| && forall j :: 0 <= j < |parts| ==> ss[j] == Strip(parts[j])
  {
    seq(|parts|, j requires 0 <= j < |parts| => Strip(parts[j]))
  }

  /** `[a.strip() for a in parts if a.strip()]`: each part stripped, the
      empty ones dropped, in order (`CleanPartsIsFilter`). */
  function CleanParts(parts: seq<string>): (r: seq<string>)
    ensures forall k :: 0 <= k < |r| ==> CleanAddress(r[k])
    ensures |r| <= |parts|
  {
    if parts == [] then []
    else
      var a := Strip(parts[0]);
      var rest := CleanParts(parts[1..]);
      if a == [] then rest else [a] + rest
  }

  /** The kept addresses are exactly the non-empty stripped parts, in the
      order of the parts. */
  lemma {:induction false} CleanPartsIsFilter(parts: seq<string>)
    ensures CleanParts(parts) == Filter(StrippedParts(parts), (a: string) => a != [])
  {
    if parts != [] {
      CleanPartsIsFilter(parts[1..]);
      assert StrippedParts(parts)[1..] == StrippedParts(parts[1..]);
    }
  }

  /** Every kept address is a stripped part, and every part that is not
      blank after stripping is kept. */
  lemma CleanPartsMembers(parts: seq<string>)
    ensures forall k :: 0 <= k < |CleanParts(parts)| ==> CleanParts(parts)[k] in StrippedParts(parts)
    ensures forall j :: 0 <= j < |parts| && Strip(parts[j]) != [] ==> Strip(parts[j]) in CleanParts(parts)
  {
    var ss := StrippedParts(parts);
    var nonEmpty := (a: string) => a != [];
    CleanPartsIsFilter(parts);
    forall j | 0 <= j < |parts| && Strip(parts[j]) != []
      ensures Strip(parts[j]) in CleanParts(parts)
    {
      FilterKeeps(ss, nonEmpty, ss[j]);
    }
  }

  /** The `MAIL_TO` recipients: the comma-separated entries, stripped, the
      empty ones dropped, in their order. */
  function Recipients(mailTo: string): (to: seq<string>)
    ensures forall k :: 0 <= k < |to| ==> CleanAddress(to[k])
    ensures |to| <= |Split(mailTo, ',')|
    ensures forall k :: 0 <= k < |to| ==> to[k] in StrippedParts(Split(mailTo, ','))
    ensures forall j :: 0 <= j < |Split(mailTo, ',')| && Strip(Split(mailTo, ',')[j]) != [] ==>
              Strip(Split(mailTo, ',')[j]) in to
  {
    CleanPartsMembers(Split(mailTo, ','));
    CleanParts(Split(mailTo, ','))
  }

  /** Parts that are already clean come through unchanged. */
  lemma {:induction false} CleanPartsKeepsClean(s: seq<string>)
    requires forall k :: 0 <= k < |s| ==> CleanAddress(s[k])
    ensures CleanParts(s) == s
  {
    if s != [] {
      StripNoSpace(s[0]);
      CleanPartsKeepsClean(s[1..]);
    }
  }

  /** Writing clean addresses into `MAIL_TO` separated by commas gives back
      exactly those addresses, in order. */
  lemma RecipientsRoundTrip(addrs: seq<string>)
    requires |addrs| >= 1
    requires forall k :: 0 <= k < |addrs| ==> CleanAddress(addrs[k]) && ',' !in addrs[k]
    ensures Recipients(Join(addrs, ',')) == addrs
  {
    SplitUnique(Join(addrs, ','), ',', addrs);
    CleanPartsKeepsClean(addrs);
  }

  /** An unset or blank `MAIL_TO` names nobody. */
  lemma BlankMailToHasNoRecipients(mailTo: string)
    requires AllSpace(mailTo) && ',' !in mailTo
    ensures Recipients(mailTo) == []
  {
    SplitUnique(mailTo, ',', [mailTo]);
  }

  /** One row of `get_latest_alert_companies()`; `Nil` for an absent key. */
  datatype AlertRow = AlertRow(
    stockCode: Value, companyName: Value, year: Value,
    defaultProbPct: Value, defaultProb: Value,
    icr: Value, capitalImpairmentRatio: Value, debtRatio: Value)

  /** The probability a row shows: `default_prob_pct`, or `default_prob`
      when the former is `None` (only `None` falls through; 0 and "" do not). */
  function ProbField(r: AlertRow): (v: Value)
    ensures r.defaultProbPct != Nil ==> v == r.defaultProbPct
    ensures r.defaultProbPct == Nil ==> v == r.defaultProb
  {
    if r.defaultProbPct == Nil then r.defaultProb else r.defaultProbPct
  }

  /** The numbers of one table row of the mail. */
  datatype Cells = Cells(prob: Option<real>, icr: Option<Double>, capitalImpairment: Option<Double>, debt: Option<Double>)

  function RowCells(r: AlertRow): (c: Cells)
    ensures r.defaultProbPct != Nil ==> c.prob == FmtProbPct(r.defaultProbPct)
    ensures r.defaultProbPct == Nil ==> c.prob == FmtProbPct(r.defaultProb)
    ensures c.icr.None? <==> Blank(r.icr) || ToFloat(r.icr).None?
    ensures c.icr.Some? ==> c.icr == ToFloat(r.icr)
    ensures c.capitalImpairment.None? <==> Blank(r.capitalImpairmentRatio) || ToFloat(r.capitalImpairmentRatio).None?
    ensures c.debt.None? <==> Blank(r.debtRatio) || ToFloat(r.debtRatio).None?
    ensures c.capitalImpairment.Some? && Parsed(r.capitalImpairmentRatio).value.Finite? ==>
              var x := Parsed(r.capitalImpairmentRatio).value.x;
              c.capitalImpairment.value == Finite(if -1.5 <= x <= 1.5 then x * 100.0 else x)
    ensures c.debt.Some? && Parsed(r.debtRatio).value.Finite? ==>
              var x := Parsed(r.debtRatio).value.x;
              c.debt.value == Finite(if -1.5 <= x <= 1.5 then x * 100.0 else x)
  {
    Cells(FmtProbPct(ProbField(r)), FmtNum(r.icr), FmtRatioPctAuto(r.capitalImpairmentRatio), FmtRatioPctAuto(r.debtRatio))
  }

  /** The mail as it is handed to the SMTP server. */
  datatype Mail = Mail(host: string, port: int, useSsl: bool, user: string, password: string,
                       sender: string, to: seq<string>, rows: seq<Cells>)

  datatype MailError =
    | BadPort(text: string)   // `int(SMTP_PORT)` raised
    | ConfigMissing           // a setting is unset or empty, or no recipient

  /** A setting `not` rejects: unset (`None`) or the empty string. */
  predicate Missing(env: Env, key: string) {
    key !in env || env[key] == ""
  }

  /** The checked settings: the port and the recipients. */
  datatype Config = Config(port: int, to: seq<string>)

  /** The checks `send_alert_email` makes before building anything: the
      port must parse, and host, user, password, a non-zero port and at
      least one recipient must be present. */
  function CheckConfig(env: Env): (r: Result<Config, MailError>)
    ensures r == Failure(ConfigMissing) <==>
      ParseInt(GetEnv(env, "SMTP_PORT", "465")).Some? &&
      (Missing(env, "SMTP_HOST") || ParseInt(GetEnv(env, "SMTP_PORT", "465")) == Some(0)
       || Missing(env, "SMTP_USER") || Missing(env, "SMTP_PASS")
       || Recipients(GetEnv(env, "MAIL_TO", "")) == [])
    ensures r.Failure? && r.error.BadPort? <==> ParseInt(GetEnv(env, "SMTP_PORT", "465")).None?
    ensures r.Success? ==>
      && Some(r.value.port) == ParseInt(GetEnv(env, "SMTP_PORT", "465")) && r.value.port != 0
      && !Missing(env, "SMTP_HOST") && !Missing(env, "SMTP_USER") && !Missing(env, "SMTP_PASS")
      && r.value.to == Recipients(GetEnv(env, "MAIL_TO", "")) && r.value.to != []
  {
    CheckSettings(env, GetEnv(env, "SMTP_PORT", "465"), ParseInt(GetEnv(env, "SMTP_PORT", "465")),
                  Recipients(GetEnv(env, "MAIL_TO", "")))
  }

  /** `CheckConfig` on the port text, its parsed value and the recipients. */
  function CheckSettings(env: Env, portText: string, port: Option<int>, to: seq<string>): (r: Result<Config, MailError>)
    ensures r == Failure(ConfigMissing) <==>
      port.Some? && (Missing(env, "SMTP_HOST") || port == Some(0)
                     || Missing(env, "SMTP_USER") || Missing(env, "SMTP_PASS") || to == [])
    ensures r.Failure? && r.error.BadPort? <==> port.None?
    ensures r.Success? ==>
      && Some(r.value.port) == port && r.value.port != 0
      && !Missing(env, "SMTP_HOST") && !Missing(env, "SMTP_USER") && !Missing(env, "SMTP_PASS")
      && r.value.to == to && to != []
  {
    match port
    case None => Failure(BadPort(portText))
    case Some(p) =>
      if Missing(env, "SMTP_HOST") || p == 0 || Missing(env, "SMTP_USER")
         || Missing(env, "SMTP_PASS") || to == [] then
        Failure(ConfigMissing)
      else
        Success(Config(p, to))
  }

  /** What `send_alert_email` builds before sending, or the error it raises
      first; on success it returns the number of recipients. */
  function SendAlertEmail(env: Env, rows: seq<AlertRow>): (r: Result<Mail, MailError>)
    ensures r.Failure? <==> CheckConfig(env).Failure?
    ensures r.Failure? ==> r.error == CheckConfig(env).error
    ensures r.Success? ==>
      var m := r.value;
      m.host != "" && m.port != 0 && m.user != "" && m.password != "" && m.to != []
      && m.host == env["SMTP_HOST"] && m.user == env["SMTP_USER"] && m.password == env["SMTP_PASS"]
      && Some(m.port) == ParseInt(GetEnv(env, "SMTP_PORT", "465"))
      && m.to == Recipients(GetEnv(env, "MAIL_TO", ""))
      && m.useSsl == EnvBool(env, "SMTP_USE_SSL", true)
      && m.sender == GetEnv(env, "MAIL_FROM", "no-reply@riskqueens.com")
      && |m.rows| == |rows|
      && forall i :: 0 <= i < |rows| ==> m.rows[i] == RowCells(rows[i])
  {
    match CheckConfig(env)
    case Failure(e) => Failure(e)
    case Success(c) => Success(BuildMail(env, c.port, c.to, rows))
  }

  /** The mail for a complete configuration: one table row per alert row. */
  function BuildMail(env: Env, port: int, to: seq<string>, rows: seq<AlertRow>): (m: Mail)
    requires !Missing(env, "SMTP_HOST") && !Missing(env, "SMTP_USER") && !Missing(env, "SMTP_PASS")
    ensures m.host != "" && m.user != "" && m.password != ""
    ensures m.host == env["SMTP_HOST"] && m.user == env["SMTP_USER"] && m.password == env["SMTP_PASS"]
    ensures m.port == port && m.to == to
    ensures m.useSsl == EnvBool(env, "SMTP_USE_SSL", true)
    ensures m.sender == GetEnv(env, "MAIL_FROM", "no-reply@riskqueens.com")
    ensures |m.rows| == |rows| && forall i :: 0 <= i < |rows| ==> m.rows[i] == RowCells(rows[i])
  {
    var cells := seq(|rows|, i requires 0 <= i < |rows| => RowCells(rows[i]));
    Mail(env["SMTP_HOST"], port, EnvBool(env, "SMTP_USE_SSL", true),
         env["SMTP_USER"], env["SMTP_PASS"],
         GetEnv(env, "MAIL_FROM", "no-reply@riskqueens.com"), to, cells)
  }

  /** The value `send_alert_email` returns: how many recipients were mailed. */
  function SentCount(m: Mail): (n: nat)
    ensures n == |m.to|
  {
    |m.to|
  }

  /** With a complete configuration the mail goes to every listed
      address, on the configured port. */
  lemma CompleteConfigSends(env: Env, rows: seq<AlertRow>, addrs: seq<string>, port: int)
    requires ParseInt(GetEnv(env, "SMTP_PORT", "465")) == Some(port) && port != 0
    requires !Missing(env, "SMTP_HOST") && !Missing(env, "SMTP_USER") && !Missing(env, "SMTP_PASS")
    requires |addrs| >= 1
    requires forall k :: 0 <= k < |addrs| ==> CleanAddress(addrs[k]) && ',' !in addrs[k]
    requires "MAIL_TO" in env && env["MAIL_TO"] == Join(addrs, ',')
    ensures SendAlertEmail(env, rows).Success?
    ensures SendAlertEmail(env, rows).value.port == port
    ensures SentCount(SendAlertEmail(env, rows).value) == |addrs|
  {
    RecipientsRoundTrip(addrs);
    assert Recipients(GetEnv(env, "MAIL_TO", "")) == addrs;
    assert CheckConfig(env) == Success(Config(port, addrs));
  }
}
