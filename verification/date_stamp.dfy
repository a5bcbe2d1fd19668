/** The minute-precision date string the edit screen stores and shows:
    `date.toISOString().slice(0, 16).replace('T', ' ')`. The ISO timestamp
    itself comes from the platform clock and is taken here as an input. */
module DateStamp {
  import Text

  predicate IsDigit(c: char) {
    '0' <= c <= '9'
  }

  /** `s` has the shape of `pattern`, where each `d` in the pattern stands
      for one decimal digit and every other character stands for itself. */
  predicate Matches(s: string, pattern: string) {
    && |s| == |pattern|
    && forall i :: 0 <= i < |s| ==>
         if pattern[i] == 'd' then IsDigit(s[i]) else s[i] == pattern[i]
  }

  /** What `toISOString` returns for years 0000 to 9999 (UTC, millisecond
      precision). */
  const IsoPattern := "dddd-dd-ddTdd:dd:dd.dddZ"

  /** The stored task date: `yyyy-MM-dd HH:mm`. */
  const StampPattern := "dddd-dd-dd dd:dd"

  /** Number of characters kept by `slice(0, 16)`. */
  const StampLength := 16

  /** `iso.slice(0, 16).replace('T', ' ')`, on any string. */
  function Stamp(iso: string): (r: string)
    ensures |r| == if |iso| < StampLength then |iso| else StampLength
  {
    Text.ReplaceFirst(Text.Take(iso, StampLength), 'T', ' ')
  }

  /** The stored form of 9:05 UTC on 2024-01-31. */
  lemma StampExample()
    ensures Stamp("2024-01-31T09:05:59.999Z") == "2024-01-31 09:05"
  {
  }

  /** On an ISO timestamp the stamp has the `yyyy-MM-dd HH:mm` shape and
      keeps the date and the hour and minute exactly; only the `T` separator
      becomes a space. */
  lemma StampOfIso(iso: string)
    requires Matches(iso, IsoPattern)
    ensures Matches(Stamp(iso), StampPattern)
    ensures Stamp(iso)[..10] == iso[..10]
    ensures Stamp(iso)[10] == ' '
    ensures Stamp(iso)[11..] == iso[11..StampLength]
  {
    var head := Text.Take(iso, StampLength);
    assert head == iso[..StampLength];
    assert forall j :: 0 <= j < 10 ==> head[j] != 'T' by {
      forall j | 0 <= j < 10 ensures head[j] != 'T' {
        assert head[j] == iso[j];
        assert IsoPattern[j] != 'T';
      }
    }
    assert head[10] == 'T';
    assert Text.IndexOf(head, 'T') == 10;
  }

  /** The ISO timestamp, at second zero, that a stored date stands for:
      the inverse of `Stamp`. */
  function ToIso(stamp: string): (r: string)
    requires Matches(stamp, StampPattern)
    ensures Matches(r, IsoPattern)
  {
    stamp[..10] + "T" + stamp[11..] + ":00.000Z"
  }

  /** Stamping the ISO form of a stored date gives that date back. */
  lemma StampToIsoRoundTrip(stamp: string)
    requires Matches(stamp, StampPattern)
    ensures Stamp(ToIso(stamp)) == stamp
  {
    var iso := ToIso(stamp);
    StampOfIso(iso);
    var r := Stamp(iso);
    forall i | 0 <= i < |stamp| ensures r[i] == stamp[i] {
      if i < 10 {
        assert r[i] == r[..10][i];
      } else if i > 10 {
        assert r[i] == r[11..][i - 11];
      }
    }
  }

  /** An ISO timestamp with zero seconds and milliseconds survives the trip
      through the stored form: stamping loses only the seconds. */
  lemma IsoToStampRoundTrip(iso: string)
    requires Matches(iso, IsoPattern)
    requires iso[StampLength..] == ":00.000Z"
    ensures Matches(Stamp(iso), StampPattern) && ToIso(Stamp(iso)) == iso
  {
    StampOfIso(iso);
    var r := ToIso(Stamp(iso));
    forall i | 0 <= i < |iso| ensures r[i] == iso[i] {
      if i < 10 {
        assert r[i] == Stamp(iso)[..10][i];
      } else if 10 < i < StampLength {
        assert r[i] == Stamp(iso)[11..][i - 11];
      } else if i >= StampLength {
        assert iso[i] == iso[StampLength..][i - StampLength];
      }
    }
  }
}
