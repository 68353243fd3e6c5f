/**
 * The field parsers of the test-data importer (src/bin/testdata.rs):
 * boolean cells, comma-separated tag cells, and the gathering of
 * "speaker<N>_<field>" columns into one speaker record per N.
 */
module TestData {
  import opened Wrappers
  import Text

  // ---------------------------------------------------------- booleans

  predicate Truthy(w: string)
  {
    w == "t" || w == "true" || w == "1" || w == "on" || w == "y" || w == "yes"
  }

  predicate Falsey(w: string)
  {
    w == "f" || w == "false" || w == "0" || w == "off" || w == "n" || w == "no" || w == ""
  }

  /**
   * bool_from_str: lower-case, trim, then look the word up; anything else
   * is an error carrying the offending word.
   */
  function BoolFromStr(s: string): (r: Result<bool, string>)
    ensures r == Ok(true) <==> Truthy(Text.Trim(Text.Lower(s)))
    ensures r == Ok(false) <==> Falsey(Text.Trim(Text.Lower(s)))
    ensures r.Err? ==> r.error == Text.Trim(Text.Lower(s))
  {
    var w := Text.Trim(Text.Lower(s));
    if Truthy(w) then Ok(true)
    else if Falsey(w) then Ok(false)
    else Err(w)
  }

  lemma LowerOfWhitespace(pad: string)
    requires Text.AllWhitespace(pad)
    ensures Text.Lower(pad) == pad
  {
  }

  /** Surrounding whitespace does not change the parsed value. */
  lemma BoolFromStrIgnoresPadding(pre: string, s: string, post: string)
    requires Text.AllWhitespace(pre) && Text.AllWhitespace(post)
    ensures BoolFromStr(pre + s + post) == BoolFromStr(s)
  {
    Text.LowerAppend(pre + s, post);
    Text.LowerAppend(pre, s);
    LowerOfWhitespace(pre);
    LowerOfWhitespace(post);
    Text.TrimPadded(pre, Text.Lower(s), post);
  }

  /** Letter case does not change the parsed value. */
  lemma BoolFromStrIgnoresCase(s: string)
    ensures BoolFromStr(Text.Lower(s)) == BoolFromStr(s)
  {
    Text.LowerIdempotent(s);
  }

  // --------------------------------------------------------------- tags

  function NonEmpty(parts: seq<string>): (r: seq<string>)
    ensures forall t :: t in r ==> t != [] && t in parts
  {
    if parts == [] then []
    else (if parts[0] == [] then [] else [parts[0]]) + NonEmpty(parts[1..])
  }

  /** tags_deserialize: split on ',' and drop the empty items. */
  function Tags(s: string): (r: seq<string>)
    ensures forall t :: t in r ==> t != [] && ',' !in t
  {
    Text.SplitPartsLackSeparator(s, ',');
    NonEmpty(Text.Split(s, ','))
  }

  function Flatten(parts: seq<string>): string
  {
    if parts == [] then [] else parts[0] + Flatten(parts[1..])
  }

  function WithoutChar(s: string, c: char): (r: string)
    ensures c !in r
  {
    if s == [] then [] else (if s[0] == c then [] else [s[0]]) + WithoutChar(s[1..], c)
  }

  lemma {:induction false} WithoutCharAppend(a: string, b: string, c: char)
    ensures WithoutChar(a + b, c) == WithoutChar(a, c) + WithoutChar(b, c)
  {
    if a != [] {
      assert (a + b)[1..] == a[1..] + b;
      WithoutCharAppend(a[1..], b, c);
    } else {
      assert a + b == b;
    }
  }

  lemma {:induction false} WithoutAbsentChar(s: string, c: char)
    requires c !in s
    ensures WithoutChar(s, c) == s
  {
    if s != [] {
      WithoutAbsentChar(s[1..], c);
    }
  }

  lemma FlattenCons(p: string, parts: seq<string>)
    ensures Flatten([p] + parts) == p + Flatten(parts)
  {
    assert ([p] + parts)[1..] == parts;
  }

  lemma {:induction false} FlattenSplit(s: string, c: char)
    ensures Flatten(Text.Split(s, c)) == WithoutChar(s, c)
  {
    if s != [] {
      var rest := Text.Split(s[1..], c);
      FlattenSplit(s[1..], c);
      if s[0] == c {
        FlattenCons([], rest);
      } else {
        FlattenCons([s[0]] + rest[0], rest[1..]);
        FlattenCons(rest[0], rest[1..]);
        assert rest == [rest[0]] + rest[1..];
      }
    }
  }

  lemma {:induction false} FlattenNonEmpty(parts: seq<string>)
    ensures Flatten(NonEmpty(parts)) == Flatten(parts)
  {
    if parts != [] {
      FlattenNonEmpty(parts[1..]);
      var rest := NonEmpty(parts[1..]);
      if parts[0] == [] {
        assert NonEmpty(parts) == rest;
      } else {
        var r := [parts[0]] + rest;
        assert NonEmpty(parts) == r;
        assert r[0] == parts[0] && r[1..] == rest;
      }
    }
  }

  /** The tags hold exactly the characters of the cell other than the commas, in order. */
  lemma TagsKeepAllButCommas(s: string)
    ensures Flatten(Tags(s)) == WithoutChar(s, ',')
  {
    FlattenNonEmpty(Text.Split(s, ','));
    FlattenSplit(s, ',');
  }

  // ------------------------------------------------------- speaker keys

  function DigitValue(c: char): nat
    requires '0' <= c <= '9'
  {
    c as int - '0' as int
  }

  predicate AllDigits(s: string)
  {
    forall i :: 0 <= i < |s| ==> '0' <= s[i] <= '9'
  }

  function DigitsValue(s: string): nat
    requires AllDigits(s)
  {
    if s == [] then 0 else DigitsValue(s[..|s| - 1]) * 10 + DigitValue(s[|s| - 1])
  }

  /** u8::from_str: an optional '+', then one or more digits, with a value below 256. */
  function ParseU8(s: string): (r: Option<int>)
    ensures r.Some? ==> 0 <= r.value <= 255
  {
    var digits := if s != [] && s[0] == '+' then s[1..] else s;
    if digits == [] || !AllDigits(digits) then None
    else if DigitsValue(digits) > 255 then None
    else Some(DigitsValue(digits))
  }

  lemma DigitValueOfChar(d: nat)
    requires d < 10
    ensures '0' <= Text.DigitChar(d) <= '9' && DigitValue(Text.DigitChar(d)) == d
  {
  }

  lemma {:induction false} DigitsValueOfNatToString(n: nat)
    ensures AllDigits(Text.NatToString(n)) && DigitsValue(Text.NatToString(n)) == n
  {
    var s := Text.NatToString(n);
    if n < 10 {
      DigitValueOfChar(n);
      assert s == [Text.DigitChar(n)] && s[..0] == [];
    } else {
      var p := Text.NatToString(n / 10);
      DigitsValueOfNatToString(n / 10);
      DigitValueOfChar(n % 10);
      assert s == p + [Text.DigitChar(n % 10)];
      assert s[..|s| - 1] == p && s[|s| - 1] == Text.DigitChar(n % 10);
      assert DigitsValue(s) == DigitsValue(p) * 10 + DigitValue(Text.DigitChar(n % 10));
    }
  }

  /** Parsing the decimal form of a byte gives the byte back. */
  lemma ParseU8OfDecimal(n: nat)
    requires n <= 255
    ensures ParseU8(Text.NatToString(n)) == Some(n)
  {
    DigitsValueOfNatToString(n);
  }

  datatype KeyParse = NotSpeaker | Field(number: int, name: string) | Malformed(msg: string)

  const SpeakerPrefix := "speaker"

  /**
   * The key handling of deserialize_fields_to_vec as written: after the
   * "speaker" prefix the key is split on '_'; the first part is the number
   * (trimmed, parsed as u8) and only the SECOND part is the field name.
   * A number that does not parse, or a key without '_', is an unwrap panic.
   */
  function SpeakerFieldAsWritten(key: string): (r: KeyParse)
    ensures r.Field? ==> 0 <= r.number <= 255 && '_' !in r.name
  {
    if |key| < |SpeakerPrefix| || key[..|SpeakerPrefix|] != SpeakerPrefix then NotSpeaker
    else
      var parts := Text.Split(key[|SpeakerPrefix|..], '_');
      Text.SplitPartsLackSeparator(key[|SpeakerPrefix|..], '_');
      match ParseU8(Text.Trim(parts[0]))
      case None => Malformed("speaker number is not a u8")
      case Some(n) => if |parts| < 2 then Malformed("missing field name") else assert parts[1] in parts; Field(n, parts[1])
  }

  /**
   * The key handling the importer needs: the field name is everything
   * after the first '_', so that "code_name" and "url_key" reach their
   * fields.
   */
  function SpeakerField(key: string): (r: KeyParse)
    ensures r.Field? ==> 0 <= r.number <= 255
    ensures SpeakerFieldAsWritten(key).Field? <==> r.Field?
    ensures r.Field? ==> r.number == SpeakerFieldAsWritten(key).number
  {
    if |key| < |SpeakerPrefix| || key[..|SpeakerPrefix|] != SpeakerPrefix then NotSpeaker
    else
      var parts := Text.Split(key[|SpeakerPrefix|..], '_');
      match ParseU8(Text.Trim(parts[0]))
      case None => Malformed("speaker number is not a u8")
      case Some(n) => if |parts| < 2 then Malformed("missing field name") else Field(n, Text.Join(parts[1..], '_'))
  }

  /** The key "speaker<N>_<rest>" after the prefix and the number. */
  lemma ColumnParts(n: nat, rest: string)
    requires n <= 255
    ensures
      var key := SpeakerPrefix + Text.NatToString(n) + "_" + rest;
      |key| >= |SpeakerPrefix| && key[..|SpeakerPrefix|] == SpeakerPrefix &&
      Text.Split(key[|SpeakerPrefix|..], '_') == [Text.NatToString(n)] + Text.Split(rest, '_') &&
      ParseU8(Text.Trim(Text.NatToString(n))) == Some(n)
  {
    var d := Text.NatToString(n);
    var key := SpeakerPrefix + d + "_" + rest;
    assert key[..|SpeakerPrefix|] == SpeakerPrefix;
    assert key[|SpeakerPrefix|..] == d + ['_'] + rest;
    assert '_' !in d by {
      forall i | 0 <= i < |d| ensures d[i] != '_' {
        assert '0' <= d[i] <= '9';
      }
    }
    Text.SplitAfterPrefix(d, '_', rest);
    TrimDigits(d);
    ParseU8OfDecimal(n);
  }

  lemma TrimDigits(d: string)
    requires d != [] && AllDigits(d)
    ensures Text.Trim(d) == d
  {
    assert !Text.IsWhitespace(d[0]);
    assert !Text.IsWhitespace(d[|d| - 1]);
  }

  /** The corrected parser reads back any column name "speaker<N>_<field>". */
  lemma SpeakerFieldOfColumn(n: nat, field: string)
    requires n <= 255
    ensures SpeakerField(SpeakerPrefix + Text.NatToString(n) + "_" + field) == Field(n, field)
  {
    ColumnParts(n, field);
    Text.JoinSplit(field, '_');
  }

  /**
   * As written, a column "speaker<N>_<a>_<b>" lands in field <a>: the
   * columns "speaker1_code_name" and "speaker1_url_key" fill fields "code"
   * and "url", so no speaker ever gets a code name or a url key.
   */
  lemma SpeakerFieldAsWrittenTruncates(n: nat, a: string, b: string)
    requires n <= 255 && '_' !in a
    ensures SpeakerFieldAsWritten(SpeakerPrefix + Text.NatToString(n) + "_" + a + "_" + b) == Field(n, a)
    ensures SpeakerField(SpeakerPrefix + Text.NatToString(n) + "_" + a + "_" + b) == Field(n, a + "_" + b)
  {
    var rest := a + "_" + b;
    assert SpeakerPrefix + Text.NatToString(n) + "_" + a + "_" + b == SpeakerPrefix + Text.NatToString(n) + "_" + rest;
    ColumnParts(n, rest);
    Text.SplitAfterPrefix(a, '_', b);
    assert a + "_" + b == a + ['_'] + b;
    Text.JoinSplit(rest, '_');
  }

  // ------------------------------------------------------------ buckets

  type Bucket = map<string, string>

  /** Every speaker number filed in the buckets is within 0..=255. */
  predicate NumbersInRange(b: map<int, Bucket>)
  {
    forall n :: n in b ==> 0 <= n <= 255
  }

  /** The buckets after the fields, in iteration order; a later value for the same field overwrites. */
  function BucketsOf(fields: seq<(string, string)>): (r: Result<map<int, Bucket>, string>)
    ensures r.Ok? ==> NumbersInRange(r.value)
  {
    BucketsFrom(map[], fields)
  }

  /** The loop over the remaining fields, starting from the buckets filled so far. */
  function BucketsFrom(b: map<int, Bucket>, fields: seq<(string, string)>): (r: Result<map<int, Bucket>, string>)
    requires NumbersInRange(b)
    ensures r.Ok? ==> NumbersInRange(r.value)
    decreases |fields|
  {
    if fields == [] then Ok(b)
    else
      match AddField(b, fields[0].0, fields[0].1)
      case Err(e) => Err(e)
      case Ok(next) => BucketsFrom(next, fields[1..])
  }

  /** One step of the loop: file the value under its speaker number and field name. */
  function AddField(b: map<int, Bucket>, key: string, value: string): (r: Result<map<int, Bucket>, string>)
    requires NumbersInRange(b)
    ensures r.Ok? ==> NumbersInRange(r.value)
    ensures r.Err? <==> SpeakerField(key).Malformed?
  {
    match SpeakerField(key)
    case NotSpeaker => Ok(b)
    case Malformed(msg) => Err(msg)
    case Field(n, name) => Ok(b[n := (if n in b then b[n] else map[])[name := value]])
  }

  /** After one step a filed value is the step's own value or was already there. */
  lemma AddFieldSound(b: map<int, Bucket>, key: string, value: string, n: int, name: string)
    requires NumbersInRange(b)
    requires AddField(b, key, value).Ok? && n in AddField(b, key, value).value && name in AddField(b, key, value).value[n]
    ensures var v := AddField(b, key, value).value[n][name];
      (SpeakerField(key) == Field(n, name) && value == v) || (n in b && name in b[n] && b[n][name] == v)
  {
  }

  /**
   * A value in the buckets after the remaining fields was either there
   * before or is the value of one of those fields, filed under its own
   * speaker number and field name.
   */
  lemma {:induction false} BucketsFromSound(b: map<int, Bucket>, fields: seq<(string, string)>, n: int, name: string)
    requires NumbersInRange(b)
    requires BucketsFrom(b, fields).Ok? && n in BucketsFrom(b, fields).value && name in BucketsFrom(b, fields).value[n]
    ensures (n in b && name in b[n] && b[n][name] == BucketsFrom(b, fields).value[n][name]) ||
      exists i :: (0 <= i < |fields| && SpeakerField(fields[i].0) == Field(n, name) &&
        fields[i].1 == BucketsFrom(b, fields).value[n][name])
    decreases |fields|
  {
    if fields != [] {
      var v := BucketsFrom(b, fields).value[n][name];
      var step := AddField(b, fields[0].0, fields[0].1);
      var next := step.value;
      var tail := fields[1..];
      assert BucketsFrom(b, fields) == BucketsFrom(next, tail);
      BucketsFromSound(next, tail, n, name);
      if n in next && name in next[n] && next[n][name] == v {
        AddFieldSound(b, fields[0].0, fields[0].1, n, name);
      } else {
        var i :| 0 <= i < |tail| && SpeakerField(tail[i].0) == Field(n, name) && tail[i].1 == v;
        assert fields[i + 1] == tail[i];
      }
    }
  }

  /** Only keys that parse as speaker columns reach a bucket, with a value given for them. */
  lemma BucketsOfSound(fields: seq<(string, string)>, n: int, name: string)
    requires BucketsOf(fields).Ok? && n in BucketsOf(fields).value && name in BucketsOf(fields).value[n]
    ensures exists i :: (0 <= i < |fields| && SpeakerField(fields[i].0) == Field(n, name) &&
      fields[i].1 == BucketsOf(fields).value[n][name])
  {
    BucketsFromSound(map[], fields, n, name);
  }

  /**
   * The loop that fills the buckets HashMap, field by field; a malformed
   * speaker key stops it with the panic message.
   */
  method CollectBuckets(fields: seq<(string, string)>) returns (r: Result<map<int, Bucket>, string>)
    ensures r == BucketsOf(fields)
  {
    var buckets: map<int, Bucket> := map[];
    var i := 0;
    while i < |fields|
      invariant 0 <= i <= |fields|
      invariant NumbersInRange(buckets)
      invariant BucketsFrom(buckets, fields[i..]) == BucketsOf(fields)
    {
      var (key, value) := fields[i];
      assert fields[i..][0] == fields[i] && fields[i..][1..] == fields[i + 1..];
      var step := AddField(buckets, key, value);
      assert BucketsFrom(buckets, fields[i..]) == if step.Err? then Err(step.error) else BucketsFrom(step.value, fields[i + 1..]);
      match SpeakerField(key) {
        case NotSpeaker =>
        case Malformed(msg) =>
          return Err(msg);
        case Field(n, name) =>
          if n in buckets {
            buckets := buckets[n := buckets[n][name := value]];
          } else {
            buckets := buckets[n := map[name := value]];
          }
      }
      assert step == Ok(buckets);
      i := i + 1;
    }
    r := Ok(buckets);
  }

  // ----------------------------------------------------------- speakers

  datatype SpeakerRow = SpeakerRow(
    name: string,
    categories: seq<string>,
    email: Option<string>,
    phone: Option<string>,
    anonymous: bool,
    codeName: Option<string>,
    urlKey: Option<string>,
    gender: Option<string>,
    pronoun: Option<string>)

  /** Every value of the bucket is empty after trimming. */
  predicate AllBlank(b: Bucket)
  {
    forall k :: k in b ==> Text.Trim(b[k]) == []
  }

  function Get(b: Bucket, k: string): Option<string>
  {
    if k in b then Some(b[k]) else None
  }

  /** Gender words, compared case-insensitively, become M, F or O; other values are kept. */
  function GenderCode(g: string): (r: string)
    ensures Text.Lower(g) == "male" ==> r == "M"
    ensures Text.Lower(g) == "female" ==> r == "F"
    ensures Text.Lower(g) == "other" ==> r == "O"
    ensures Text.Lower(g) != "male" && Text.Lower(g) != "female" && Text.Lower(g) != "other" ==> r == g
  {
    var l := Text.Lower(g);
    if l == "male" then "M" else if l == "female" then "F" else if l == "other" then "O" else g
  }

  /** Recoding a recoded gender changes nothing. */
  lemma GenderCodeIdempotent(g: string)
    ensures GenderCode(GenderCode(g)) == GenderCode(g)
  {
    var r := GenderCode(g);
    assert Text.Lower("M") == "m" && Text.Lower("F") == "f" && Text.Lower("O") == "o";
  }

  /** The speaker built from one bucket; a bucket without a name is the expect panic. */
  function SpeakerOf(b: Bucket): (r: Result<SpeakerRow, string>)
    ensures r.Ok? <==> "name" in b
    ensures r.Ok? ==> r.value.name == b["name"]
    ensures r.Ok? ==> r.value.codeName == Get(b, "code_name") && r.value.urlKey == Get(b, "url_key")
  {
    if "name" !in b then Err("error: missing name!")
    else Ok(SpeakerRow(
      b["name"],
      if "categories" in b then Categories(b["categories"]) else [],
      Get(b, "email"),
      Get(b, "phone"),
      "anonymous" in b && Text.Lower(b["anonymous"]) == "true",
      Get(b, "code_name"),
      Get(b, "url_key"),
      if "gender" in b then Some(GenderCode(b["gender"])) else None,
      Get(b, "pronoun")))
  }

  /** A speaker's categories: split on ',', dropping the items that are blank after trimming. */
  function Categories(s: string): (r: seq<string>)
    ensures forall c :: c in r ==> Text.Trim(c) != [] && ',' !in c
  {
    Text.SplitPartsLackSeparator(s, ',');
    NonBlank(Text.Split(s, ','))
  }

  function NonBlank(parts: seq<string>): (r: seq<string>)
    ensures forall t :: t in r ==> Text.Trim(t) != [] && t in parts
  {
    if parts == [] then []
    else (if Text.Trim(parts[0]) == [] then [] else [parts[0]]) + NonBlank(parts[1..])
  }

  /** The bucket numbered m exists and is not all blank. */
  predicate Keeps(b: map<int, Bucket>, m: int)
  {
    m in b && !AllBlank(b[m])
  }

  /** The numbers from n to 255 whose bucket exists and is not all blank, ascending. */
  function Kept(b: map<int, Bucket>, n: int): (r: seq<int>)
    ensures forall m :: m in r ==> n <= m <= 255 && Keeps(b, m)
    decreases 256 - n
  {
    if n > 255 then []
    else if Keeps(b, n) then [n] + Kept(b, n + 1)
    else Kept(b, n + 1)
  }

  /** Kept lists the numbers in strictly ascending order. */
  lemma {:induction false} KeptAscending(b: map<int, Bucket>, n: int)
    ensures forall i :: 0 < i < |Kept(b, n)| ==> Kept(b, n)[i - 1] < Kept(b, n)[i]
    decreases 256 - n
  {
    if n <= 255 {
      KeptAscending(b, n + 1);
      var rest := Kept(b, n + 1);
      if Keeps(b, n) {
        var r := [n] + rest;
        assert Kept(b, n) == r;
        forall i | 0 < i < |r| ensures r[i - 1] < r[i] {
          assert r[i] == rest[i - 1] && rest[i - 1] in rest;
          if i > 1 {
            assert r[i - 1] == rest[i - 2];
          }
        }
      }
    }
  }

  /** Kept lists every number from n on whose bucket is kept. */
  lemma {:induction false} KeptComplete(b: map<int, Bucket>, n: int, m: int)
    requires n <= m <= 255 && Keeps(b, m)
    ensures m in Kept(b, n)
    decreases 256 - n
  {
    if m > n {
      KeptComplete(b, n + 1, m);
    }
  }

  /** Every bucket numbered in ks has a name. */
  predicate AllNamed(b: map<int, Bucket>, ks: seq<int>)
    requires forall k :: k in ks ==> k in b
  {
    forall k :: k in ks ==> "name" in b[k]
  }

  /**
   * The speakers of the buckets numbered ks, in that order; a bucket
   * without a name stops the collection with the expect panic.
   */
  function SpeakersOf(b: map<int, Bucket>, ks: seq<int>): (r: Result<seq<SpeakerRow>, string>)
    requires forall k :: k in ks ==> k in b
    ensures r.Ok? ==> |r.value| == |ks|
  {
    if ks == [] then Ok([])
    else
      var first := ks[0];
      assert first in ks;
      match SpeakerOf(b[first])
      case Err(e) => Err(e)
      case Ok(s) =>
        match SpeakersOf(b, ks[1..])
        case Err(e) => Err(e)
        case Ok(rest) => Ok([s] + rest)
  }

  /** The collection fails exactly when some bucket lacks a name; otherwise the i-th speaker is that of the i-th bucket. */
  lemma {:induction false} SpeakersOfSound(b: map<int, Bucket>, ks: seq<int>)
    requires forall k :: k in ks ==> k in b
    ensures SpeakersOf(b, ks).Ok? <==> AllNamed(b, ks)
    ensures SpeakersOf(b, ks).Ok? ==> forall i :: 0 <= i < |ks| ==> Ok(SpeakersOf(b, ks).value[i]) == SpeakerOf(b[ks[i]])
  {
    if ks != [] {
      var tail := ks[1..];
      assert forall i :: 0 <= i < |tail| ==> tail[i] == ks[i + 1];
      SpeakersOfSound(b, tail);
      var first := ks[0];
      assert first in ks;
      if "name" !in b[first] {
        assert !AllNamed(b, ks);
      } else if SpeakersOf(b, tail).Err? {
        var i :| 0 <= i < |tail| && "name" !in b[tail[i]];
        assert "name" !in b[ks[i + 1]];
      } else {
        var r := SpeakersOf(b, ks).value;
        var rest := SpeakersOf(b, tail).value;
        assert r == [SpeakerOf(b[ks[0]]).value] + rest;
        forall i | 0 <= i < |ks| ensures "name" in b[ks[i]] && Ok(r[i]) == SpeakerOf(b[ks[i]]) {
          if i > 0 {
            assert r[i] == rest[i - 1];
          }
        }
      }
    }
  }

  /** deserialize_fields_to_vec over the row's (column, value) pairs, in the map's iteration order. */
  method DeserializeFieldsToVec(fields: seq<(string, string)>) returns (r: Result<seq<SpeakerRow>, string>)
    ensures BucketsOf(fields).Err? ==> r.Err?
    ensures BucketsOf(fields).Ok? ==> r == SpeakersOf(BucketsOf(fields).value, Kept(BucketsOf(fields).value, 0))
  {
    var buckets := CollectBuckets(fields);
    match buckets
    case Err(e) => r := Err(e);
    case Ok(b) => r := SpeakersOf(b, Kept(b, 0));
  }
}
