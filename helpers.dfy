/** The display helpers of the web client (src/utils/helpers.js): relative
    time, the urgency and status badge tables, category icons and text
    truncation. Wall-clock readings are parameters in milliseconds. */
module Helpers {
  import opened Wrappers
  import opened Text
  import opened Entities

  // ---------------------------------------------------------------- timeAgo

  /** The bucket timeAgo puts an elapsed time into. */
  datatype Ago = JustNow | MinutesAgo(minutes: nat) | HoursAgo(hours: nat) | DaysAgo(days: nat) | OnDate

  /** Whole seconds between two readings, rounded down as `Math.floor`
      does (Dafny's division by a positive number rounds down too). */
  function ElapsedSeconds(nowMs: int, dateMs: int): int {
    (nowMs - dateMs) / 1000
  }

  /** The bucket of timeAgo, with minutes, hours and days each the floor of
      the previous unit. A date in the future counts as just now. */
  function Bucket(seconds: int): (b: Ago)
    ensures b == JustNow <==> seconds < 60
    ensures b.MinutesAgo? ==> 60 <= seconds < 3600 && b.minutes * 60 <= seconds < (b.minutes + 1) * 60
    ensures b.HoursAgo? ==> 3600 <= seconds < 86400 && b.hours * 3600 <= seconds < (b.hours + 1) * 3600
    ensures b.DaysAgo? ==> 86400 <= seconds < 604800 && b.days * 86400 <= seconds < (b.days + 1) * 86400
    ensures b == OnDate <==> seconds >= 604800
  {
    if seconds < 60 then JustNow
    else
      var minutes := seconds / 60;
      if minutes < 60 then MinutesAgo(minutes)
      else
        var hours := minutes / 60;
        if hours < 24 then HoursAgo(hours)
        else
          var days := hours / 24;
          if days < 7 then DaysAgo(days) else OnDate
  }

  /** Buckets are ordered from most to least recent. */
  function Rank(b: Ago): nat {
    match b
    case JustNow => 0
    case MinutesAgo(_) => 1
    case HoursAgo(_) => 2
    case DaysAgo(_) => 3
    case OnDate => 4
  }

  /** A longer elapsed time never lands in a more recent bucket, and within
      one bucket never shows a smaller count. */
  lemma BucketMonotone(s1: int, s2: int)
    requires s1 <= s2
    ensures Rank(Bucket(s1)) <= Rank(Bucket(s2))
    ensures Bucket(s1).MinutesAgo? && Bucket(s2).MinutesAgo? ==> Bucket(s1).minutes <= Bucket(s2).minutes
    ensures Bucket(s1).HoursAgo? && Bucket(s2).HoursAgo? ==> Bucket(s1).hours <= Bucket(s2).hours
    ensures Bucket(s1).DaysAgo? && Bucket(s2).DaysAgo? ==> Bucket(s1).days <= Bucket(s2).days
  {
  }

  /** timeAgo. `localeDate` stands for `date.toLocaleDateString("en-IN")`. */
  function TimeAgo(nowMs: int, dateMs: int, localeDate: string): (r: string)
    ensures ElapsedSeconds(nowMs, dateMs) < 60 ==> r == "Just now"
    ensures ElapsedSeconds(nowMs, dateMs) >= 604800 ==> r == localeDate
  {
    match Bucket(ElapsedSeconds(nowMs, dateMs))
    case JustNow => "Just now"
    case MinutesAgo(m) => DecimalText(m) + "m ago"
    case HoursAgo(h) => DecimalText(h) + "h ago"
    case DaysAgo(d) => DecimalText(d) + "d ago"
    case OnDate => localeDate
  }

  // ---------------------------------------------------------------- badge tables

  /** Turns a constant name into its badge label: `_` becomes a space,
      the first letter of each word is upper case and the rest lower case. */
  function Humanize(name: string): (r: string)
    ensures |r| == |name|
    ensures forall i :: 0 <= i < |name| ==> r[i] == HumanizedChar(name, i)
  {
    seq(|name|, i requires 0 <= i < |name| => HumanizedChar(name, i))
  }

  predicate IsLetter(c: char) {
    'A' <= c <= 'Z' || 'a' <= c <= 'z'
  }

  function HumanizedChar(name: string, i: int): char
    requires 0 <= i < |name|
  {
    if name[i] == '_' then ' '
    else if i == 0 || name[i - 1] == '_' then UpperChar(name[i])
    else LowerChar(name[i])
  }

  /** What a humanized label looks like: every `_` is a space, every other
      char is kept up to case, and a letter is upper case exactly when it
      starts a word. */
  lemma HumanizeShape(name: string)
    ensures forall i :: 0 <= i < |name| && name[i] == '_' ==> Humanize(name)[i] == ' '
    ensures forall i :: 0 <= i < |name| && name[i] != '_' ==> CharEqualsIgnoreCase(Humanize(name)[i], name[i])
    ensures forall i :: 0 <= i < |name| && IsLetter(name[i]) ==>
              ('A' <= Humanize(name)[i] <= 'Z' <==> i == 0 || name[i - 1] == '_')
  {
    forall i | 0 <= i < |name| {
      HumanizedCharShape(name, i);
    }
  }

  lemma HumanizedCharShape(name: string, i: int)
    requires 0 <= i < |name|
    ensures name[i] == '_' ==> HumanizedChar(name, i) == ' '
    ensures name[i] != '_' ==> CharEqualsIgnoreCase(HumanizedChar(name, i), name[i])
    ensures IsLetter(name[i]) ==> ('A' <= HumanizedChar(name, i) <= 'Z' <==> i == 0 || name[i - 1] == '_')
  {
  }

  datatype UrgencyConfig = UrgencyConfig(bg: string, text: string, border: string, dot: string,
                                         icon: string, labelText: string)

  const EmergencyBadge := UrgencyConfig("bg-danger-50", "text-danger-600", "border-danger-200", "bg-danger-500",
                                        "\U{1F6A8}", "Emergency")
  const UrgentBadge := UrgencyConfig("bg-warning-50", "text-warning-600", "border-warning-200", "bg-warning-500",
                                     "\U{26A1}", "Urgent")
  const NormalBadge := UrgencyConfig("bg-success-50", "text-success-600", "border-success-200", "bg-success-500",
                                     "\U{2713}", "Normal")

  /** getUrgencyConfig: a case-sensitive match on the two raised levels;
      everything else, null included, gets the NORMAL badge. */
  function GetUrgencyConfig(urgency: Option<string>): (c: UrgencyConfig)
    ensures c in {EmergencyBadge, UrgentBadge, NormalBadge}
    ensures c == EmergencyBadge <==> urgency == Some("EMERGENCY")
    ensures c == UrgentBadge <==> urgency == Some("URGENT")
  {
    match urgency
    case Some("EMERGENCY") => EmergencyBadge
    case Some("URGENT") => UrgentBadge
    case _ => NormalBadge
  }

  /** The match is case-sensitive: a level spelled in lower case falls
      back to the NORMAL badge. */
  lemma UrgencyBadgeIsCaseSensitive(u: UrgencyLevel)
    ensures GetUrgencyConfig(Some(ToLower(u.Name()))) == NormalBadge
  {
    assert ToLower(u.Name())[0] == LowerChar(u.Name()[0]);
  }

  /** Every urgency level the server sends gets its own badge, labelled
      with its humanized name. */
  lemma UrgencyBadgesMatchLevels(u: UrgencyLevel, v: UrgencyLevel)
    ensures GetUrgencyConfig(Some(u.Name())).labelText == Humanize(u.Name())
    ensures u != v ==> GetUrgencyConfig(Some(u.Name())) != GetUrgencyConfig(Some(v.Name()))
  {
    assert forall i :: 0 <= i < 6 ==> Humanize("NORMAL")[i] == "Normal"[i];
    assert forall i :: 0 <= i < 6 ==> Humanize("URGENT")[i] == "Urgent"[i];
    assert forall i :: 0 <= i < 9 ==> Humanize("EMERGENCY")[i] == "Emergency"[i];
  }

  datatype StatusConfig = StatusConfig(bg: string, text: string, dot: string, labelText: string)

  /** The statuses getStatusConfig has a badge for. */
  const KnownStatuses: set<string> := {"OPEN", "ACCEPTED", "IN_PROGRESS", "COMPLETED", "CANCELLED"}

  /** The badge of a status getStatusConfig does not know. */
  function NeutralBadge(status: string): StatusConfig {
    StatusConfig("bg-surface-100", "text-surface-500", "bg-surface-400", status)
  }

  /** getStatusConfig: a case-sensitive match on the five statuses; any
      other status gets the neutral badge labelled with the status itself. */
  function GetStatusConfig(status: string): (c: StatusConfig)
    ensures status == "OPEN" ==> c.labelText == "Open"
    ensures status == "ACCEPTED" ==> c.labelText == "Accepted"
    ensures status == "IN_PROGRESS" ==> c.labelText == "In Progress"
    ensures status == "COMPLETED" ==> c.labelText == "Completed"
    ensures status == "CANCELLED" ==> c == NeutralBadge("Cancelled")
    ensures status !in KnownStatuses ==> c == NeutralBadge(status)
    ensures c.labelText == status <==> status !in KnownStatuses
  {
    match status
    case "OPEN" => StatusConfig("bg-primary-50", "text-primary-700", "bg-primary-500", "Open")
    case "ACCEPTED" => StatusConfig("bg-warning-50", "text-warning-700", "bg-warning-500", "Accepted")
    case "IN_PROGRESS" => StatusConfig("bg-purple-50", "text-purple-700", "bg-purple-500", "In Progress")
    case "COMPLETED" => StatusConfig("bg-success-50", "text-success-700", "bg-success-500", "Completed")
    case "CANCELLED" => NeutralBadge("Cancelled")
    case _ => NeutralBadge(status)
  }

  /** A status that is not a task status is shown as it is, on the neutral badge. */
  lemma UnknownStatusShownAsIs(status: string)
    requires forall s: TaskStatus :: s.Name() != status
    ensures GetStatusConfig(status) == NeutralBadge(status)
  {
    assert Open.Name() != status && TaskStatus.Accepted.Name() != status && InProgress.Name() != status;
    assert Completed.Name() != status && Cancelled.Name() != status;
  }

  /** The humanized names of the five statuses. */
  lemma HumanizedStatusNames()
    ensures Humanize("OPEN") == "Open" && Humanize("ACCEPTED") == "Accepted"
    ensures Humanize("IN_PROGRESS") == "In Progress"
    ensures Humanize("COMPLETED") == "Completed" && Humanize("CANCELLED") == "Cancelled"
  {
    HumanizedOpenStatusNames();
    HumanizedClosedStatusNames();
  }

  lemma HumanizedOpenStatusNames()
    ensures Humanize("OPEN") == "Open" && Humanize("ACCEPTED") == "Accepted"
    ensures Humanize("IN_PROGRESS") == "In Progress"
  {
    assert forall i :: 0 <= i < 4 ==> Humanize("OPEN")[i] == "Open"[i];
    assert forall i :: 0 <= i < 8 ==> Humanize("ACCEPTED")[i] == "Accepted"[i];
    assert forall i :: 0 <= i < 11 ==> Humanize("IN_PROGRESS")[i] == "In Progress"[i];
  }

  lemma HumanizedClosedStatusNames()
    ensures Humanize("COMPLETED") == "Completed" && Humanize("CANCELLED") == "Cancelled"
  {
    assert forall i :: 0 <= i < 9 ==> Humanize("COMPLETED")[i] == "Completed"[i];
    assert forall i :: 0 <= i < 9 ==> Humanize("CANCELLED")[i] == "Cancelled"[i];
  }

  /** Every task status gets a dedicated label, its humanized name, and no
      two statuses share one. */
  lemma StatusBadgesMatchStatuses(s: TaskStatus, t: TaskStatus)
    ensures GetStatusConfig(s.Name()).labelText == Humanize(s.Name())
    ensures s != t ==> GetStatusConfig(s.Name()).labelText != GetStatusConfig(t.Name()).labelText
  {
    HumanizedStatusNames();
  }

  // ---------------------------------------------------------------- getCategoryIcon

  const FallbackIcon: string := "\U{1F4CB}"

  /** The icon table of getCategoryIcon, keyed by category id. */
  const CategoryIcons: map<string, string> := map[
    "plumbing" := "\U{1F527}", "electrical" := "\U{26A1}", "cleaning" := "\U{1F9F9}",
    "delivery" := "\U{1F4E6}", "shifting" := "\U{1F69B}", "medical" := "\U{1F3E5}",
    "gardening" := "\U{1F331}", "teaching" := "\U{1F4DA}", "tech" := "\U{1F4BB}",
    "cooking" := "\U{1F373}", "painting" := "\U{1F3A8}", "other" := "\U{1F4CB}"]

  /** getCategoryIcon: the table's icon, or the clipboard for any other id. */
  function GetCategoryIcon(categoryId: string): (icon: string)
    ensures categoryId !in CategoryIcons ==> icon == FallbackIcon
  {
    if categoryId in CategoryIcons then CategoryIcons[categoryId] else FallbackIcon
  }

  /** Only "other" shares the fallback icon; every listed id gets its own. */
  lemma CategoryIconsDistinct(a: string, b: string)
    requires a in CategoryIcons && b in CategoryIcons && a != b
    ensures GetCategoryIcon(a) != GetCategoryIcon(b)
    ensures GetCategoryIcon(a) == FallbackIcon <==> a == "other"
  {
  }

  // ---------------------------------------------------------------- truncate

  const Ellipsis: string := "\U{2026}"

  /** truncate: "" for a null or empty string; the string itself when it
      fits in `len`; otherwise its first `len` chars and one ellipsis. */
  function Truncate(str: Option<string>, len: int := 80): (r: string)
    ensures str.None? ==> r == ""
    ensures str.Some? && |str.value| <= len ==> r == str.value
    ensures str == Some("") ==> r == ""
    ensures str.Some? && str.value != "" && |str.value| > len ==>
              |r| == (if len < 0 then 0 else len) + 1 && r[..|r| - 1] == str.value[..|r| - 1] && r[|r| - 1] == '\U{2026}'
  {
    if str.None? || str.value == "" then ""
    else if |str.value| > len then str.value[..if len < 0 then 0 else len] + Ellipsis
    else str.value
  }

  /** Truncating twice with the same length is truncating once. */
  lemma TruncateIdempotent(str: Option<string>, len: int)
    requires len >= 0
    ensures Truncate(Some(Truncate(str, len)), len) == Truncate(str, len)
  {
    if str.Some? && |str.value| > len {
      var r := Truncate(str, len);
      assert r[..len] == str.value[..len];
    }
  }

  // ---------------------------------------------------------------- as written

  // The non-ASCII literals of helpers.js are stored mis-encoded: each is the
  // UTF-8 encoding of the intended character read back as Windows-1252, with
  // the bytes that code page leaves undefined dropped. The functions above use
  // the intended characters; the ones below keep the literals as written.

  /** The UTF-8 encoding of one character. */
  function Utf8Bytes(c: char): (bs: seq<int>)
    ensures 1 <= |bs| <= 4 && forall i :: 0 <= i < |bs| ==> 0 <= bs[i] < 0x100
  {
    var cp := c as int;
    if cp < 0x80 then [cp]
    else if cp < 0x800 then [0xC0 + cp / 0x40, 0x80 + cp % 0x40]
    else if cp < 0x10000 then [0xE0 + cp / 0x1000, 0x80 + (cp / 0x40) % 0x40, 0x80 + cp % 0x40]
    else [0xF0 + cp / 0x40000, 0x80 + (cp / 0x1000) % 0x40, 0x80 + (cp / 0x40) % 0x40, 0x80 + cp % 0x40]
  }

  /** The characters Windows-1252 gives the bytes 0x80 to 0x9F; the five
      bytes it leaves undefined are absent. */
  const Cp1252High: map<int, char> := map[
    0x80 := '\U{20AC}', 0x82 := '\U{201A}', 0x83 := '\U{0192}', 0x84 := '\U{201E}',
    0x85 := '\U{2026}', 0x86 := '\U{2020}', 0x87 := '\U{2021}', 0x88 := '\U{02C6}',
    0x89 := '\U{2030}', 0x8A := '\U{0160}', 0x8B := '\U{2039}', 0x8C := '\U{0152}',
    0x8E := '\U{017D}', 0x91 := '\U{2018}', 0x92 := '\U{2019}', 0x93 := '\U{201C}',
    0x94 := '\U{201D}', 0x95 := '\U{2022}', 0x96 := '\U{2013}', 0x97 := '\U{2014}',
    0x98 := '\U{02DC}', 0x99 := '\U{2122}', 0x9A := '\U{0161}', 0x9B := '\U{203A}',
    0x9C := '\U{0153}', 0x9E := '\U{017E}', 0x9F := '\U{0178}']

  /** One byte read as Windows-1252; empty for the undefined bytes. */
  function Cp1252Text(b: int): (r: string)
    requires 0 <= b < 0x100
    ensures |r| <= 1
  {
    if b < 0x80 || 0xA0 <= b then [b as char]
    else if b in Cp1252High then [Cp1252High[b]]
    else ""
  }

  function MisdecodedChar(c: char): string {
    var bs := Utf8Bytes(c);
    Cp1252Text(bs[0]) + (if |bs| > 1 then Cp1252Text(bs[1]) else "")
    + (if |bs| > 2 then Cp1252Text(bs[2]) else "") + (if |bs| > 3 then Cp1252Text(bs[3]) else "")
  }

  /** A text encoded as UTF-8 and read back as Windows-1252. */
  function Misdecoded(s: string): (r: string)
    ensures (forall i :: 0 <= i < |s| ==> s[i] < '\U{80}') ==> r == s
  {
    if s == [] then [] else MisdecodedChar(s[0]) + Misdecoded(s[1..])
  }

  /** The ellipsis literal of truncate as stored: three characters. */
  const EllipsisAsWritten: string := "\U{E2}\U{20AC}\U{A6}"

  /** truncate as written, appending the stored literal. */
  function TruncateAsWritten(str: Option<string>, len: int := 80): (r: string)
    ensures str.None? || str.value == "" || |str.value| <= len ==> r == Truncate(str, len)
    ensures str.Some? && str.value != "" && |str.value| > len ==>
              r == Truncate(str, len)[..|Truncate(str, len)| - 1] + EllipsisAsWritten
  {
    if str.None? || str.value == "" then ""
    else if |str.value| > len then str.value[..if len < 0 then 0 else len] + EllipsisAsWritten
    else str.value
  }

  /** As written, a truncated text is three characters longer than `len`,
      not one, and does not end in an ellipsis: the stored literal is the
      mis-decoded ellipsis. */
  lemma TruncateAsWrittenOverruns(s: string, len: nat)
    requires |s| > len
    ensures EllipsisAsWritten == Misdecoded(Ellipsis)
    ensures |TruncateAsWritten(Some(s), len)| == len + 3
    ensures |Truncate(Some(s), len)| == len + 1
    ensures TruncateAsWritten(Some(s), len) != Truncate(Some(s), len)
  {
    assert Utf8Bytes('\U{2026}') == [0xE2, 0x80, 0xA6];
    assert Cp1252Text(0x80) == "\U{20AC}";
    assert Misdecoded(Ellipsis) == MisdecodedChar('\U{2026}') + Misdecoded([]);
  }

  /** The icon table of getCategoryIcon as stored. */
  const CategoryIconsAsWritten: map<string, string> := map[
    "plumbing" := "\U{F0}\U{178}\U{201D}\U{A7}", "electrical" := "\U{E2}\U{161}\U{A1}",
    "cleaning" := "\U{F0}\U{178}\U{A7}\U{B9}", "delivery" := "\U{F0}\U{178}\U{201C}\U{A6}",
    "shifting" := "\U{F0}\U{178}\U{161}\U{203A}", "medical" := "\U{F0}\U{178}\U{A5}",
    "gardening" := "\U{F0}\U{178}\U{152}\U{B1}", "teaching" := "\U{F0}\U{178}\U{201C}\U{161}",
    "tech" := "\U{F0}\U{178}\U{2019}\U{BB}", "cooking" := "\U{F0}\U{178}\U{B3}",
    "painting" := "\U{F0}\U{178}\U{17D}\U{A8}", "other" := "\U{F0}\U{178}\U{201C}\U{2039}"]

  const FallbackIconAsWritten: string := "\U{F0}\U{178}\U{201C}\U{2039}"

  /** getCategoryIcon as written. */
  function GetCategoryIconAsWritten(categoryId: string): (icon: string)
    ensures categoryId in CategoryIcons <==> categoryId in CategoryIconsAsWritten
    ensures categoryId !in CategoryIcons ==> icon == FallbackIconAsWritten
    ensures icon == FallbackIconAsWritten <==> categoryId !in CategoryIcons || categoryId == "other"
  {
    if categoryId in CategoryIconsAsWritten then CategoryIconsAsWritten[categoryId] else FallbackIconAsWritten
  }

  /** A one-character text is mis-decoded character by character. */
  lemma MisdecodedOne(c: char)
    ensures Misdecoded([c]) == MisdecodedChar(c)
  {
    assert [c][1..] == [];
  }

  /** The icon of one category as written is its mis-decoded intended icon
      and differs from it. */
  predicate IconMisdecodedAt(categoryId: string) {
    && GetCategoryIconAsWritten(categoryId) == Misdecoded(GetCategoryIcon(categoryId))
    && GetCategoryIconAsWritten(categoryId) != GetCategoryIcon(categoryId)
  }

  /** A category whose icon is one character, and whose stored icon is that
      character mis-decoded into more than one, is mis-decoded as stated. */
  lemma IconMisdecodedFrom(categoryId: string, c: char)
    requires GetCategoryIcon(categoryId) == [c]
    requires GetCategoryIconAsWritten(categoryId) == MisdecodedChar(c)
    requires |MisdecodedChar(c)| > 1
    ensures IconMisdecodedAt(categoryId)
  {
    MisdecodedOne(c);
  }

  // One pair of lemmas per category: the mis-decoding of the icon character,
  // then the table entries (the byte arithmetic is costly to prove for the
  // whole table at once).

  lemma PlumbingIconCharMisdecoded()
    ensures MisdecodedChar('\U{1F527}') == "\U{F0}\U{178}\U{201D}\U{A7}"
  {
    assert Utf8Bytes('\U{1F527}') == [0xF0, 0x9F, 0x94, 0xA7];
    assert Cp1252Text(0x9F) == "\U{178}" && Cp1252Text(0x94) == "\U{201D}";
  }

  lemma PlumbingIconMisdecoded(categoryId: string)
    requires categoryId == "plumbing"
    ensures IconMisdecodedAt(categoryId)
  {
    PlumbingIconCharMisdecoded();
    IconMisdecodedFrom(categoryId, '\U{1F527}');
  }

  lemma ElectricalIconCharMisdecoded()
    ensures MisdecodedChar('\U{26A1}') == "\U{E2}\U{161}\U{A1}"
  {
    assert Utf8Bytes('\U{26A1}') == [0xE2, 0x9A, 0xA1];
    assert Cp1252Text(0x9A) == "\U{161}";
  }

  lemma ElectricalIconMisdecoded(categoryId: string)
    requires categoryId == "electrical"
    ensures IconMisdecodedAt(categoryId)
  {
    ElectricalIconCharMisdecoded();
    IconMisdecodedFrom(categoryId, '\U{26A1}');
  }

  lemma CleaningIconCharMisdecoded()
    ensures MisdecodedChar('\U{1F9F9}') == "\U{F0}\U{178}\U{A7}\U{B9}"
  {
    assert Utf8Bytes('\U{1F9F9}') == [0xF0, 0x9F, 0xA7, 0xB9];
    assert Cp1252Text(0x9F) == "\U{178}";
  }

  lemma CleaningIconMisdecoded(categoryId: string)
    requires categoryId == "cleaning"
    ensures IconMisdecodedAt(categoryId)
  {
    CleaningIconCharMisdecoded();
    IconMisdecodedFrom(categoryId, '\U{1F9F9}');
  }

  lemma DeliveryIconCharMisdecoded()
    ensures MisdecodedChar('\U{1F4E6}') == "\U{F0}\U{178}\U{201C}\U{A6}"
  {
    assert Utf8Bytes('\U{1F4E6}') == [0xF0, 0x9F, 0x93, 0xA6];
    assert Cp1252Text(0x9F) == "\U{178}" && Cp1252Text(0x93) == "\U{201C}";
  }

  lemma DeliveryIconMisdecoded(categoryId: string)
    requires categoryId == "delivery"
    ensures IconMisdecodedAt(categoryId)
  {
    DeliveryIconCharMisdecoded();
    IconMisdecodedFrom(categoryId, '\U{1F4E6}');
  }

  lemma ShiftingIconCharMisdecoded()
    ensures MisdecodedChar('\U{1F69B}') == "\U{F0}\U{178}\U{161}\U{203A}"
  {
    assert Utf8Bytes('\U{1F69B}') == [0xF0, 0x9F, 0x9A, 0x9B];
    assert Cp1252Text(0x9F) == "\U{178}" && Cp1252Text(0x9A) == "\U{161}" && Cp1252Text(0x9B) == "\U{203A}";
  }

  lemma ShiftingIconMisdecoded(categoryId: string)
    requires categoryId == "shifting"
    ensures IconMisdecodedAt(categoryId)
  {
    ShiftingIconCharMisdecoded();
    IconMisdecodedFrom(categoryId, '\U{1F69B}');
  }

  lemma MedicalIconCharMisdecoded()
    ensures MisdecodedChar('\U{1F3E5}') == "\U{F0}\U{178}\U{A5}"
  {
    assert Utf8Bytes('\U{1F3E5}') == [0xF0, 0x9F, 0x8F, 0xA5];
    assert Cp1252Text(0x9F) == "\U{178}" && Cp1252Text(0x8F) == "";
  }

  lemma MedicalIconMisdecoded(categoryId: string)
    requires categoryId == "medical"
    ensures IconMisdecodedAt(categoryId)
  {
    MedicalIconCharMisdecoded();
    IconMisdecodedFrom(categoryId, '\U{1F3E5}');
  }

  lemma GardeningIconCharMisdecoded()
    ensures MisdecodedChar('\U{1F331}') == "\U{F0}\U{178}\U{152}\U{B1}"
  {
    assert Utf8Bytes('\U{1F331}') == [0xF0, 0x9F, 0x8C, 0xB1];
    assert Cp1252Text(0x9F) == "\U{178}" && Cp1252Text(0x8C) == "\U{152}";
  }

  lemma GardeningIconMisdecoded(categoryId: string)
    requires categoryId == "gardening"
    ensures IconMisdecodedAt(categoryId)
  {
    GardeningIconCharMisdecoded();
    IconMisdecodedFrom(categoryId, '\U{1F331}');
  }

  lemma TeachingIconCharMisdecoded()
    ensures MisdecodedChar('\U{1F4DA}') == "\U{F0}\U{178}\U{201C}\U{161}"
  {
    assert Utf8Bytes('\U{1F4DA}') == [0xF0, 0x9F, 0x93, 0x9A];
    assert Cp1252Text(0x9F) == "\U{178}" && Cp1252Text(0x93) == "\U{201C}" && Cp1252Text(0x9A) == "\U{161}";
  }

  lemma TeachingIconMisdecoded(categoryId: string)
    requires categoryId == "teaching"
    ensures IconMisdecodedAt(categoryId)
  {
    TeachingIconCharMisdecoded();
    IconMisdecodedFrom(categoryId, '\U{1F4DA}');
  }

  lemma TechIconCharMisdecoded()
    ensures MisdecodedChar('\U{1F4BB}') == "\U{F0}\U{178}\U{2019}\U{BB}"
  {
    assert Utf8Bytes('\U{1F4BB}') == [0xF0, 0x9F, 0x92, 0xBB];
    assert Cp1252Text(0x9F) == "\U{178}" && Cp1252Text(0x92) == "\U{2019}";
  }

  lemma TechIconMisdecoded(categoryId: string)
    requires categoryId == "tech"
    ensures IconMisdecodedAt(categoryId)
  {
    TechIconCharMisdecoded();
    IconMisdecodedFrom(categoryId, '\U{1F4BB}');
  }

  lemma CookingIconCharMisdecoded()
    ensures MisdecodedChar('\U{1F373}') == "\U{F0}\U{178}\U{B3}"
  {
    assert Utf8Bytes('\U{1F373}') == [0xF0, 0x9F, 0x8D, 0xB3];
    assert Cp1252Text(0x9F) == "\U{178}" && Cp1252Text(0x8D) == "";
  }

  lemma CookingIconMisdecoded(categoryId: string)
    requires categoryId == "cooking"
    ensures IconMisdecodedAt(categoryId)
  {
    CookingIconCharMisdecoded();
    IconMisdecodedFrom(categoryId, '\U{1F373}');
  }

  lemma PaintingIconCharMisdecoded()
    ensures MisdecodedChar('\U{1F3A8}') == "\U{F0}\U{178}\U{17D}\U{A8}"
  {
    assert Utf8Bytes('\U{1F3A8}') == [0xF0, 0x9F, 0x8E, 0xA8];
    assert Cp1252Text(0x9F) == "\U{178}" && Cp1252Text(0x8E) == "\U{17D}";
  }

  lemma PaintingIconMisdecoded(categoryId: string)
    requires categoryId == "painting"
    ensures IconMisdecodedAt(categoryId)
  {
    PaintingIconCharMisdecoded();
    IconMisdecodedFrom(categoryId, '\U{1F3A8}');
  }

  lemma OtherIconCharMisdecoded()
    ensures MisdecodedChar('\U{1F4CB}') == "\U{F0}\U{178}\U{201C}\U{2039}"
  {
    assert Utf8Bytes('\U{1F4CB}') == [0xF0, 0x9F, 0x93, 0x8B];
    assert Cp1252Text(0x9F) == "\U{178}" && Cp1252Text(0x93) == "\U{201C}" && Cp1252Text(0x8B) == "\U{2039}";
  }

  lemma OtherIconMisdecoded(categoryId: string)
    requires categoryId == "other"
    ensures IconMisdecodedAt(categoryId)
  {
    OtherIconCharMisdecoded();
    IconMisdecodedFrom(categoryId, '\U{1F4CB}');
  }

  /** Every icon getCategoryIcon returns as written, the fallback included,
      is the mis-decoded intended icon, and never the icon itself. */
  lemma CategoryIconsMisdecoded(categoryId: string)
    ensures GetCategoryIconAsWritten(categoryId) == Misdecoded(GetCategoryIcon(categoryId))
    ensures GetCategoryIconAsWritten(categoryId) != GetCategoryIcon(categoryId)
  {
    if categoryId == "plumbing" {
      PlumbingIconMisdecoded(categoryId);
    } else if categoryId == "electrical" {
      ElectricalIconMisdecoded(categoryId);
    } else if categoryId == "cleaning" {
      CleaningIconMisdecoded(categoryId);
    } else if categoryId == "delivery" {
      DeliveryIconMisdecoded(categoryId);
    } else if categoryId == "shifting" {
      ShiftingIconMisdecoded(categoryId);
    } else if categoryId == "medical" {
      MedicalIconMisdecoded(categoryId);
    } else if categoryId == "gardening" {
      GardeningIconMisdecoded(categoryId);
    } else if categoryId == "teaching" {
      TeachingIconMisdecoded(categoryId);
    } else if categoryId == "tech" {
      TechIconMisdecoded(categoryId);
    } else if categoryId == "cooking" {
      CookingIconMisdecoded(categoryId);
    } else if categoryId == "painting" {
      PaintingIconMisdecoded(categoryId);
    } else if categoryId == "other" {
      OtherIconMisdecoded(categoryId);
    } else {
      assert GetCategoryIcon(categoryId) == GetCategoryIcon("other");
      assert GetCategoryIconAsWritten(categoryId) == GetCategoryIconAsWritten("other");
      OtherIconMisdecoded("other");
    }
  }

  /** getUrgencyConfig as written: the same badges with the stored icons. */
  function GetUrgencyConfigAsWritten(urgency: Option<string>): (c: UrgencyConfig)
    ensures c.(icon := GetUrgencyConfig(urgency).icon) == GetUrgencyConfig(urgency)
  {
    match urgency
    case Some("EMERGENCY") => EmergencyBadge.(icon := "\U{F0}\U{178}\U{161}\U{A8}")
    case Some("URGENT") => UrgentBadge.(icon := "\U{E2}\U{161}\U{A1}")
    case _ => NormalBadge.(icon := "\U{E2}\U{153}\U{201C}")
  }

  lemma EmergencyIconCharMisdecoded()
    ensures MisdecodedChar('\U{1F6A8}') == "\U{F0}\U{178}\U{161}\U{A8}"
  {
    assert Utf8Bytes('\U{1F6A8}') == [0xF0, 0x9F, 0x9A, 0xA8];
    assert Cp1252Text(0x9F) == "\U{178}" && Cp1252Text(0x9A) == "\U{161}";
  }

  lemma NormalIconCharMisdecoded()
    ensures MisdecodedChar('\U{2713}') == "\U{E2}\U{153}\U{201C}"
  {
    assert Utf8Bytes('\U{2713}') == [0xE2, 0x9C, 0x93];
    assert Cp1252Text(0x9C) == "\U{153}" && Cp1252Text(0x93) == "\U{201C}";
  }

  /** As written, every urgency badge shows the mis-decoded intended icon
      and nothing else differs. */
  lemma UrgencyIconsMisdecoded(urgency: Option<string>)
    ensures GetUrgencyConfigAsWritten(urgency)
            == GetUrgencyConfig(urgency).(icon := Misdecoded(GetUrgencyConfig(urgency).icon))
    ensures GetUrgencyConfigAsWritten(urgency).icon != GetUrgencyConfig(urgency).icon
  {
    var icon := GetUrgencyConfig(urgency).icon;
    assert |icon| == 1 && icon == [icon[0]];
    MisdecodedOne(icon[0]);
    EmergencyIconCharMisdecoded();
    ElectricalIconCharMisdecoded();
    NormalIconCharMisdecoded();
  }
}
