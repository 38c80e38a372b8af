/** The guard the editor runs on an image dropped or pasted into a post, before uploading it. */
module ImageUpload {
  import opened Wrappers
  import opened Text
  import opened EditContentForm

  /** The largest image the editor uploads, in bytes: 20 MiB. */
  const MaxUploadBytes := 20 * 1024 * 1024

  const TypeMessage := "File type not supported."
  const SizeMessage := "File size too big (max 20MB)."

  /** Why `validateFn` refuses a file, if it does: first a type that does not contain "image/", then
      a size above 20 MiB. `file.size / 1024 / 1024 > 20` is exact on whole byte counts, so it is
      the comparison of the size with 20 MiB. */
  function Refusal(file: File): (r: Option<string>)
    ensures r.None? <==> Includes(file.mime, "image/") && file.size <= MaxUploadBytes
    ensures !Includes(file.mime, "image/") ==> r == Some(TypeMessage)
    ensures Includes(file.mime, "image/") && file.size > MaxUploadBytes ==> r == Some(SizeMessage)
  {
    if !Includes(file.mime, "image/") then Some(TypeMessage)
    else if file.size > MaxUploadBytes then Some(SizeMessage)
    else None
  }

  /** `validateFn`: the file is uploaded exactly when it is not refused. */
  function Validate(file: File): (ok: bool)
    ensures ok <==> Refusal(file).None?
  {
    Refusal(file).None?
  }

  /** The size bound is inclusive: an image of exactly 20 MiB is uploaded, one byte more is not. */
  lemma TwentyMiBIsTheLimit(mime: string)
    requires Includes(mime, "image/")
    ensures Validate(File(mime, MaxUploadBytes))
    ensures Refusal(File(mime, MaxUploadBytes + 1)) == Some(SizeMessage)
  {
  }

  /** The type is checked first: a file that is not an image is refused for its type whatever its
      size. */
  lemma TypeCheckedFirst(mime: string, size: nat)
    requires !Includes(mime, "image/")
    ensures Refusal(File(mime, size)) == Some(TypeMessage)
  {
  }

  /** Every type "image/" + subtype passes, whatever its subtype, at any size up to 20 MiB. */
  lemma ImageTypesPass(subtype: string, size: nat)
    requires size <= MaxUploadBytes
    ensures Validate(File("image/" + subtype, size))
  {
    assert OccursAt("image/" + subtype, "image/", 0);
  }

  /** Every file the feature-image guard of the editing form accepts, the editor accepts too: its
      type starts with "image/" and so contains it, and 5 MiB is below 20 MiB. The converse fails:
      a type like "x-image/y" or a 6 MiB image passes here only. */
  lemma FeatureImageGuardIsStricter(file: File)
    ensures ImageProblem(file).None? ==> Validate(file)
    ensures Validate(File("x-image/y", 1)) && ImageProblem(File("x-image/y", 1)).Some?
  {
    if ImageProblem(file).None? {
      assert OccursAt(file.mime, "image/", 0);
    }
    assert OccursAt("x-image/y", "image/", 2);
    assert "x-image/y"[..6][0] == 'x';
  }
}
