/** The avatar dialog (AvatarUploadModal.tsx): replacing the viewer's avatar stores the new image in
    the `avatars` bucket under a timestamped name, points the profile at its public address and
    only then removes the old image; deleting removes the stored image and clears the address. */
module AvatarUpload {
  import opened Base
  import opened Text
  import opened Backend

  /** `${Date.now()}.${file.name.split('.').pop()}`: the timestamp and the original name's last
      '.'-segment (the whole name when it has no '.'). */
  function AvatarFileName(now: string, name: string): string
  {
    now + "." + LastSegment(name, '.')
  }

  /** The stored name keeps the timestamp and the original extension, which holds no '.' and ends
      the original name; a name and a timestamp without '/' give a name without '/'. */
  lemma AvatarFileNameShape(now: string, name: string)
    ensures (var ext := LastSegment(name, '.');
      AvatarFileName(now, name) == now + "." + ext
      && '.' !in ext && |ext| <= |name| && name[|name| - |ext|..] == ext)
    ensures '/' !in now && '/' !in name ==> '/' !in AvatarFileName(now, name)
  {
    var ext := LastSegment(name, '.');
    LastSegmentIsSuffix(name, '.');
    if '/' !in now && '/' !in name {
      assert forall i :: 0 <= i < |ext| ==> ext[i] == name[|name| - |ext| + i];
      assert '/' !in ext;
      assert AvatarFileName(now, name) == now + ("." + ext);
    }
  }

  /** `url.split('/').pop()`: the stored name the remove calls derive from an avatar address. */
  function StoredName(url: string): string
  {
    LastSegment(url, '/')
  }

  /** The name read back from a public address is the stored path it was built from, so a later
      replace or delete removes the very file this upload stored. */
  lemma AvatarUrlRoundTrip(path: string)
    requires '/' !in path
    ensures StoredName(PublicUrl(Avatars, path)) == path
  {
    assert PublicUrl(Avatars, path) == BucketUrl(Avatars) + ['/'] + path;
    LastSegmentAfter(BucketUrl(Avatars), path, '/');
  }

  /** Where `handleAvatarUpload` stopped. */
  datatype UploadStep = NoFile | ProfileFailed | UploadFailed | UpdateFailed | RemoveFailed | Replaced

  /** Where `handleAvatarDelete` stopped. */
  datatype DeleteStep = Unauthenticated | ProfileMissing | NoAvatar | StorageFailed | ClearFailed | Cleared

  /** The outcome of replacing an avatar, from the stores `files0` and `profiles0` to `files` and
      `profiles`: an upload failure (or a name already taken) changes nothing, an update failure
      keeps the new file, and after the update the old file is removed unless `oldUrl` is unset or
      the removal fails. */
  ghost predicate Replacement(step: UploadStep, files0: set<StoredFile>, profiles0: seq<ProfileRow>,
                              files: set<StoredFile>, profiles: seq<ProfileRow>, userId: string, path: string,
                              oldUrl: Option<string>, uploadFails: bool, updateFails: bool, removeFails: bool)
  {
    var added := files0 + {StoredFile(Avatars, path)};
    step in {UploadFailed, UpdateFailed, RemoveFailed, Replaced}
    && (step == UploadFailed <==> uploadFails || StoredFile(Avatars, path) in files0)
    && (step == UploadFailed ==> files == files0 && profiles == profiles0)
    && (step == UpdateFailed <==> step != UploadFailed && updateFails)
    && (step == UpdateFailed ==> files == added && profiles == profiles0)
    && (step in {RemoveFailed, Replaced} ==>
      profiles == UpdateProfiles(profiles0, userId, SetAvatar(Some(PublicUrl(Avatars, path))))
      && (step == RemoveFailed <==> Truthy(oldUrl) && removeFails)
      && files == (if Truthy(oldUrl) && !removeFails
        then added - {StoredFile(Avatars, StoredName(oldUrl.value))} else added))
  }

  /** The writes of `handleAvatarUpload` once the profile is read: store the file under `path`,
      point the profile of `userId` at its public address, then remove the old file `oldUrl` names
      when it is set. Each step stops at its own failure. */
  method ReplaceAvatar(store: Store, userId: string, path: string, oldUrl: Option<string>,
                       uploadFails: bool, updateFails: bool, removeFails: bool) returns (step: UploadStep)
    modifies store`files, store`profiles
    ensures Replacement(step, old(store.files), old(store.profiles), store.files, store.profiles,
      userId, path, oldUrl, uploadFails, updateFails, removeFails)
  {
    var ok := store.Upload(Avatars, path, uploadFails);
    if !ok {
      return UploadFailed;
    }
    ok := store.UpdateProfile(userId, SetAvatar(Some(PublicUrl(Avatars, path))), updateFails);
    if !ok {
      return UpdateFailed;
    }
    if Truthy(oldUrl) {
      ok := store.Remove(Avatars, StoredName(oldUrl.value), removeFails);
      if !ok {
        return RemoveFailed;
      }
    }
    return Replaced;
  }

  /** The state of the dialog. `session` is the signed-in user's id. */
  class Modal {
    var uploading: bool
    var session: Option<string>
    var previewUrl: Option<string>

    constructor ()
      ensures !uploading && session.None? && previewUrl.None?
    {
      uploading := false;
      session := None;
      previewUrl := None;
    }

    /** The mount effect: without a session the dialog goes to '/login' (`redirected`); otherwise it
        keeps the session and previews the profile's avatar when there is one. */
    method FetchSession(store: Store, current: Option<string>, profileFails: bool) returns (redirected: bool)
      modifies this`session, this`previewUrl
      ensures redirected <==> current.None?
      ensures session == if current.None? then old(session) else current
      ensures (previewUrl == if current.Some? && !profileFails && |ProfilesWithId(store.profiles, current.value)| == 1
        && Truthy(ProfilesWithId(store.profiles, current.value)[0].avatarUrl)
        then ProfilesWithId(store.profiles, current.value)[0].avatarUrl else old(previewUrl))
    {
      if current.None? {
        return true;
      }
      session := current;
      var profile := store.SelectProfile(current.value, profileFails);
      if profile.Ok? && Truthy(profile.value.avatarUrl) {
        previewUrl := profile.value.avatarUrl;
      }
      return false;
    }

    /** `handleAvatarUpload` for the chosen file's name (`selected`, none when no file was chosen)
        at time `now`: read the profile (`.single()`; without a session no row matches), store the
        file under `AvatarFileName`, point the profile at its public address, then remove the old
        file when the profile had an address. An update failure leaves the new file stored; a
        failing removal stops before `onAvatarUploaded` (`uploaded`) and the preview. */
    method HandleAvatarUpload(store: Store, selected: Option<string>, now: string,
                              profileFails: bool, uploadFails: bool, updateFails: bool, removeFails: bool)
      returns (step: UploadStep, uploaded: Option<string>)
      modifies this`uploading, this`previewUrl, store`files, store`profiles
      ensures !uploading
      ensures step == NoFile <==> selected.None?
      ensures (step == ProfileFailed <==> (selected.Some?
        && (session.None? || profileFails || |ProfilesWithId(old(store.profiles), session.value)| != 1)))
      ensures (step in {NoFile, ProfileFailed} ==>
        store.files == old(store.files) && store.profiles == old(store.profiles))
      ensures (step !in {NoFile, ProfileFailed} ==>
        Replacement(step, old(store.files), old(store.profiles), store.files, store.profiles, session.value,
          AvatarFileName(now, selected.value), ProfilesWithId(old(store.profiles), session.value)[0].avatarUrl,
          uploadFails, updateFails, removeFails))
      ensures uploaded.Some? <==> step == Replaced
      ensures step == Replaced ==> uploaded == Some(PublicUrl(Avatars, AvatarFileName(now, selected.value)))
      ensures previewUrl == if step == Replaced then uploaded else old(previewUrl)
    {
      uploading := true;
      uploaded := None;
      if selected.None? {
        uploading := false;
        return NoFile, None;
      }
      var path := AvatarFileName(now, selected.value);
      if session.None? {
        uploading := false;
        return ProfileFailed, None;
      }
      var userId := session.value;
      var current := store.SelectProfile(userId, profileFails);
      if current.Err? {
        uploading := false;
        return ProfileFailed, None;
      }
      step := ReplaceAvatar(store, userId, path, current.value.avatarUrl, uploadFails, updateFails, removeFails);
      if step == Replaced {
        uploaded := Some(PublicUrl(Avatars, path));
        previewUrl := uploaded;
      }
      uploading := false;
    }

    /** `handleAvatarDelete`: without a session nothing happens; the profile is read (`.single()`);
        with an address, the file it names is removed and then the address set to null; a storage
        failure stops before the profile changes. `notified` is the `onAvatarUploaded('')` call. */
    method HandleAvatarDelete(store: Store, profileFails: bool, removeFails: bool, updateFails: bool)
      returns (step: DeleteStep, notified: Option<string>)
      modifies this`previewUrl, store`files, store`profiles
      ensures step == Unauthenticated <==> session.None?
      ensures (step == ProfileMissing <==> (session.Some?
        && (profileFails || |ProfilesWithId(old(store.profiles), session.value)| != 1)))
      ensures (step == NoAvatar <==> (session.Some? && !profileFails && |ProfilesWithId(old(store.profiles), session.value)| == 1
        && !Truthy(ProfilesWithId(old(store.profiles), session.value)[0].avatarUrl)))
      ensures (step in {Unauthenticated, ProfileMissing, NoAvatar} ==>
        store.files == old(store.files) && store.profiles == old(store.profiles))
      ensures (step in {StorageFailed, ClearFailed, Cleared} ==> (
        var url := ProfilesWithId(old(store.profiles), session.value)[0].avatarUrl.value;
        (step == StorageFailed <==> removeFails)
        && store.files == (if removeFails then old(store.files) else old(store.files) - {StoredFile(Avatars, StoredName(url))})
        && (step == ClearFailed <==> !removeFails && updateFails)
        && store.profiles == (if step == Cleared then UpdateProfiles(old(store.profiles), session.value, SetAvatar(None))
          else old(store.profiles))))
      ensures notified.Some? <==> step == Cleared
      ensures notified.Some? ==> notified.value == ""
      ensures previewUrl == if step == Cleared then None else old(previewUrl)
    {
      notified := None;
      if session.None? {
        return Unauthenticated, None;
      }
      var userId := session.value;
      var profile := store.SelectProfile(userId, profileFails);
      if profile.Err? {
        return ProfileMissing, None;
      }
      var existing := profile.value.avatarUrl;
      if !Truthy(existing) {
        return NoAvatar, None;
      }
      var ok := store.Remove(Avatars, StoredName(existing.value), removeFails);
      if !ok {
        return StorageFailed, None;
      }
      ok := store.UpdateProfile(userId, SetAvatar(None), updateFails);
      if !ok {
        return ClearFailed, None;
      }
      previewUrl := None;
      return Cleared, Some("");
    }
  }
}
