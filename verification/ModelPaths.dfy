/** Model ids as directory names: `_get_local_path` and `_dir_to_model_id`. */
module ModelPaths {
  /** "/" becomes "--". */
  function Encode(id: string): string {
    if id == "" then "" else (if id[0] == '/' then "--" else [id[0]]) + Encode(id[1..])
  }

  /** "--" becomes "/", from the left. */
  function Decode(name: string): string {
    if name == "" then ""
    else if |name| > 1 && name[0] == '-' && name[1] == '-' then "/" + Decode(name[2..])
    else [name[0]] + Decode(name[1..])
  }

  const HF_PREFIX := "models--"

  predicate HasHfPrefix(name: string) {
    HF_PREFIX <= name
  }

  /** The model id a cache directory stands for. */
  function DirToModelId(name: string, isHf: bool): string {
    Decode(if isHf && HasHfPrefix(name) then name[|HF_PREFIX|..] else name)
  }

  /** The directory name a model id is stored under. */
  function LocalName(id: string, isHf: bool): string {
    (if isHf then HF_PREFIX else "") + Encode(id)
  }

  /** No dash is followed by a dash or a slash. */
  predicate Clean(s: string) {
    forall i | 0 <= i < |s| - 1 :: s[i] == '-' ==> s[i + 1] != '-' && s[i + 1] != '/'
  }

  lemma {:induction false} EncodeHasNoSlash(id: string)
    ensures '/' !in Encode(id)
  {
    if id != "" { EncodeHasNoSlash(id[1..]); }
  }

  lemma {:induction false} DecodeIsClean(name: string)
    requires '/' !in name
    ensures Clean(Decode(name))
    ensures name != "" && !(|name| > 1 && name[0] == '-' && name[1] == '-') ==> Decode(name) != "" && Decode(name)[0] == name[0]
    decreases |name|
  {
    if name == "" {
    } else if |name| > 1 && name[0] == '-' && name[1] == '-' {
      DecodeIsClean(name[2..]);
    } else {
      DecodeIsClean(name[1..]);
      if name[0] == '-' && |name| > 1 && |name[1..]| > 1 { assert name[1..][0] != '-'; }
    }
  }

  lemma {:induction false} DecodeOfEncode(id: string)
    requires Clean(id)
    ensures Decode(Encode(id)) == id
  {
    if id != "" {
      var rest := id[1..];
      assert Clean(rest) by {
        forall i | 0 <= i < |rest| - 1 && rest[i] == '-' ensures rest[i + 1] != '-' && rest[i + 1] != '/' {
          assert id[i + 1] == '-' && id[i + 1 + 1] == rest[i + 1];
        }
      }
      DecodeOfEncode(rest);
      var code := Encode(id);
      if id[0] == '/' {
        assert code[2..] == Encode(rest);
      } else {
        assert code[1..] == Encode(rest);
        if id[0] == '-' && rest != "" { assert id[0 + 1] == rest[0] && Encode(rest)[0] == rest[0]; }
      }
    }
  }

  /** A model id survives the trip through its directory name exactly when no dash in it is followed by a dash or a slash. */
  lemma RoundTripIffClean(id: string, isHf: bool)
    ensures DirToModelId(LocalName(id, isHf), isHf) == id <==> Clean(id)
  {
    EncodeHasNoSlash(id);
    DecodeIsClean(Encode(id));
    if isHf { assert LocalName(id, isHf)[|HF_PREFIX|..] == Encode(id); }
    assert !isHf ==> LocalName(id, isHf) == Encode(id);
    if Clean(id) { DecodeOfEncode(id); }
  }
}
