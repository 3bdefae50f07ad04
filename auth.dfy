/** Accounts: sign-up, sign-in and profile editing. The identity store's
    own checks (password rules, hashing, the outcome of creating or
    updating an account) are inputs here. */
module Auth {
  import opened Common
  import opened Text
  import opened Records
  import opened Store
  import opened PostPages
  import SignUpForm
  import Conversations

  const ContentCreatorRole: string := "ContentCreator"
  const AdminRole: string := "Admin"

  const AdminHome: string := "Admin/Home/Index"
  const CreatorHome: string := "ContentCreator/Following/FollowingPosts"
  const Home: string := "Home/Index"
  const SignInPage: string := "Auth/SignIn"

  /** The user name a new account gets: the e-mail address up to its first
      '@'. */
  function UserNameFromEmail(email: string): (name: string)
    ensures '@' !in name && |name| <= |email| && name == email[..|name|]
    ensures '@' in email ==> email[|name|] == '@'
  {
    BeforeFirst(email, '@')
  }

  /** An address that passes the form's e-mail rule yields a non-empty user
      name, followed in the address by its only '@'. */
  lemma ValidEmailGivesUserName(email: string)
    requires SignUpForm.EmailAddress(Some(email))
    ensures var name := UserNameFromEmail(email);
            name != [] && |name| < |email| - 1 && email[|name|] == '@' && '@' !in email[|name| + 1..]
  {
  }

  /** Where a signed-in account lands: administrators first, then content
      creators, everyone else at home. */
  function RedirectFor(roles: seq<string>): (target: string)
    ensures AdminRole in roles ==> target == AdminHome
    ensures AdminRole !in roles && ContentCreatorRole in roles ==> target == CreatorHome
    ensures AdminRole !in roles && ContentCreatorRole !in roles ==> target == Home
  {
    if AdminRole in roles then AdminHome
    else if ContentCreatorRole in roles then CreatorHome
    else Home
  }

  function PictureSizeError(maxSizeMb: int): string {
    "File size must be less than " + IntToString(maxSizeMb) + "MB."
  }

  function PictureFormatError(allowed: seq<string>): string {
    "Only these formats are allowed: " + Join(", ", allowed)
  }

  /** The sign-up picture checks: none without a non-empty file; the size
      first, then the extension. */
  function SignUpPictureError(picture: Option<Upload>, allowed: seq<string>, maxSizeMb: int): (err: Option<string>)
    ensures !HasFile(picture) ==> err.None?
    ensures HasFile(picture) ==>
              (err.None? <==> picture.value.length <= MaxSizeBytes(maxSizeMb) && ImageExtension(picture.value) in allowed)
    ensures HasFile(picture) && picture.value.length > MaxSizeBytes(maxSizeMb) ==> err == Some(PictureSizeError(maxSizeMb))
  {
    if !HasFile(picture) then None
    else if picture.value.length > MaxSizeBytes(maxSizeMb) then Some(PictureSizeError(maxSizeMb))
    else if ImageExtension(picture.value) !in allowed then Some(PictureFormatError(allowed))
    else None
  }

  /** The two pages check in opposite orders: a file that is both too big
      and of a refused type is refused for its size at sign-up and for its
      type by the post form. */
  lemma ChecksRunInOppositeOrders(image: Upload, allowed: seq<string>, maxSizeMb: int)
    requires image.length > 0 && image.length > MaxSizeBytes(maxSizeMb) && ImageExtension(image) !in allowed
    ensures SignUpPictureError(Some(image), allowed, maxSizeMb) == Some(PictureSizeError(maxSizeMb))
    ensures ImageError(image, allowed, maxSizeMb) == Some(FormatError(allowed))
  {
  }

  function WelcomeNotice(userName: string): string {
    "Welcome " + userName + "! Your account has been successfully created."
  }

  /** The account sign-up creates. It has no bio yet; the other profile
      details are copied from `details`. */
  function NewAccount(id: string, email: string, majorName: string, details: ProfileDetails,
                      picture: Option<string>): (u: User)
    ensures u.id == id && u.email == email && u.userName == UserNameFromEmail(email)
    ensures u.details.majorName == Some(majorName) && u.profilePicture == picture
    ensures u.details.bio.None?
    ensures u.details.firstName == details.firstName && u.details.lastName == details.lastName
    ensures u.details.gender == details.gender && u.details.phoneNumber == details.phoneNumber
    ensures u.details.dateOfBirth == details.dateOfBirth
    ensures u.roles == [ContentCreatorRole] && u.lastSeen.None?
  {
    User(id, UserNameFromEmail(email), email, details.(majorName := Some(majorName), bio := None), picture, None,
         [ContentCreatorRole])
  }

  /** A new account is sent to the creators' feed. */
  lemma NewAccountLandsOnFeed(id: string, email: string, majorName: string, details: ProfileDetails,
                              picture: Option<string>)
    ensures RedirectFor(NewAccount(id, email, majorName, details, picture).roles) == CreatorHome
  {
    assert AdminRole !in [ContentCreatorRole];
  }

  /** `SignUp(model)`. `newUserId` is the id the identity store assigns,
      `createOk` whether it accepts the account (password rules, unique
      names), `storedPath` where the upload service stores the picture.
      `details` carries the first and last name, phone number, gender and
      date of birth the action copies from the form; the sign-up form
      declares none of these fields, so they are an input here, and only
      the major name is taken from the modelled form. */
  method SignUp(db: Db, form: SignUpForm.Form, details: ProfileDetails, newUserId: string, createOk: bool,
                storedPath: string, allowed: seq<string>, maxSizeMb: int, now: int) returns (status: Status)
    modifies db`users, db`notifications, db`nextId, db`log
    ensures !SignUpForm.Valid(form) ==> status == ShowForm("") && unchanged(db)
    ensures SignUpForm.Valid(form) && SignUpPictureError(form.profilePicture, allowed, maxSizeMb).Some? ==>
              status == ShowForm(SignUpPictureError(form.profilePicture, allowed, maxSizeMb).value) && unchanged(db)
    ensures SignUpForm.Valid(form) && SignUpPictureError(form.profilePicture, allowed, maxSizeMb).None? ==>
              var stored := if HasFile(form.profilePicture) then [StoreFile(storedPath)] else [];
              var picture := if HasFile(form.profilePicture) then Some(storedPath) else None;
              var account := NewAccount(newUserId, form.email.value, form.majorName.value, details, picture);
              if !createOk then
                status == ShowForm("") && db.log == old(db.log) + stored
                && db.users == old(db.users) && db.notifications == old(db.notifications) && db.nextId == old(db.nextId)
              else
                status == Redirect(RedirectFor(account.roles))
                && db.users == old(db.users) + [account]
                && db.notifications == old(db.notifications)
                     + [NewNotification(old(db.nextId), newUserId, WelcomeNotice(account.userName), now)]
                && db.nextId == old(db.nextId) + 1
                && db.log == old(db.log) + stored + [Commit, Commit, SignedIn(newUserId), Commit]
  {
    if !SignUpForm.Valid(form) {
      return ShowForm("");
    }
    assert form.email.Some? && form.majorName.Some? by {
      SignUpForm.ValidMeans(form);
    }
    var err := SignUpPictureError(form.profilePicture, allowed, maxSizeMb);
    if err.Some? {
      return ShowForm(err.value);
    }
    status := CreateAccount(db, form.profilePicture, form.email.value, form.majorName.value, details,
                            newUserId, createOk, storedPath, now);
  }

  /** The part of sign-up after validation: store the picture, create the
      account, sign it in and send the welcome notification. */
  method CreateAccount(db: Db, upload: Option<Upload>, email: string, majorName: string,
                       details: ProfileDetails, newUserId: string, createOk: bool,
                       storedPath: string, now: int) returns (status: Status)
    modifies db`users, db`notifications, db`nextId, db`log
    ensures var stored := if HasFile(upload) then [StoreFile(storedPath)] else [];
            var picture := if HasFile(upload) then Some(storedPath) else None;
            var account := NewAccount(newUserId, email, majorName, details, picture);
            if !createOk then
              status == ShowForm("") && db.log == old(db.log) + stored
              && db.users == old(db.users) && db.notifications == old(db.notifications) && db.nextId == old(db.nextId)
            else
              status == Redirect(RedirectFor(account.roles))
              && db.users == old(db.users) + [account]
              && db.notifications == old(db.notifications)
                   + [NewNotification(old(db.nextId), newUserId, WelcomeNotice(account.userName), now)]
              && db.nextId == old(db.nextId) + 1
              && db.log == old(db.log) + stored + [Commit, Commit, SignedIn(newUserId), Commit]
  {
    var picture := None;
    if HasFile(upload) {
      db.log := db.log + [StoreFile(storedPath)];
      picture := Some(storedPath);
    }
    var account := NewAccount(newUserId, email, majorName, details, picture);
    if !createOk {
      return ShowForm("");
    }
    // the account, the sign-in, then the welcome notification
    db.users := db.users + [account];
    db.notifications := db.notifications + [NewNotification(db.nextId, newUserId, WelcomeNotice(account.userName), now)];
    db.nextId := db.nextId + 1;
    db.log := db.log + [Commit, Commit, SignedIn(newUserId), Commit];
    status := Redirect(RedirectFor(account.roles));
  }

  /** `FindByEmailAsync`: the first account whose address matches,
      ignoring the case of ASCII letters. */
  function FindByEmail(users: seq<User>, email: string): (r: Option<nat>)
    ensures r.Some? ==> r.value < |users| && ToUpper(users[r.value].email) == ToUpper(email)
    ensures r.None? <==> forall i :: 0 <= i < |users| ==> ToUpper(users[i].email) != ToUpper(email)
  {
    FirstIndex(users, (u: User) => ToUpper(u.email) == ToUpper(email))
  }

  /** `FindByNameAsync`, likewise on user names. */
  function FindByName(users: seq<User>, name: string): (r: Option<nat>)
    ensures r.Some? ==> r.value < |users| && ToUpper(users[r.value].userName) == ToUpper(name)
    ensures r.None? <==> forall i :: 0 <= i < |users| ==> ToUpper(users[i].userName) != ToUpper(name)
  {
    FirstIndex(users, (u: User) => ToUpper(u.userName) == ToUpper(name))
  }

  /** The account a sign-in names: by e-mail address first, then by user
      name. */
  function SignInAccount(users: seq<User>, login: string): (r: Option<nat>)
    ensures FindByEmail(users, login).Some? ==> r == FindByEmail(users, login)
    ensures FindByEmail(users, login).None? ==> r == FindByName(users, login)
    ensures r.None? <==> forall i :: 0 <= i < |users| ==>
              ToUpper(users[i].email) != ToUpper(login) && ToUpper(users[i].userName) != ToUpper(login)
  {
    match FindByEmail(users, login)
    case Some(k) => Some(k)
    case None => FindByName(users, login)
  }

  const InvalidLogin: string := "Invalid username or password"

  /** A page answer with its one-off message. */
  datatype Answer = Answer(status: Status, flash: string)

  /** `SignIn(model)`. `passwordOk` is the identity store's verdict on the
      password for the account found. */
  method SignIn(db: Db, login: string, formValid: bool, passwordOk: bool) returns (answer: Answer)
    modifies db`log
    ensures !formValid ==> answer == Answer(ShowForm(""), "") && unchanged(db)
    ensures formValid && SignInAccount(db.users, login).None? ==>
              answer == Answer(ShowForm(InvalidLogin), "User not found.") && unchanged(db)
    ensures formValid && SignInAccount(db.users, login).Some? && !passwordOk ==>
              answer == Answer(ShowForm(InvalidLogin), "Incorrect password.") && unchanged(db)
    ensures formValid && SignInAccount(db.users, login).Some? && passwordOk ==>
              var u := db.users[SignInAccount(db.users, login).value];
              answer == Answer(Redirect(RedirectFor(u.roles)), "Welcome back, " + u.userName + "!")
              && db.log == old(db.log) + [SignedIn(u.id)]
  {
    if !formValid {
      return Answer(ShowForm(""), "");
    }
    var k := SignInAccount(db.users, login);
    if k.None? {
      return Answer(ShowForm(InvalidLogin), "User not found.");
    }
    if !passwordOk {
      return Answer(ShowForm(InvalidLogin), "Incorrect password.");
    }
    var u := db.users[k.value];
    db.log := db.log + [SignedIn(u.id)];
    answer := Answer(Redirect(RedirectFor(u.roles)), "Welcome back, " + u.userName + "!");
  }

  /** The profile form: a new user name, the profile fields and a new
      picture. */
  datatype ProfileForm = ProfileForm(nameUser: Option<string>, details: ProfileDetails, newPicture: Option<Upload>)

  /** A rename is attempted for a non-blank name different from the
      current one. */
  predicate WantsRename(u: User, name: Option<string>) {
    !IsNullOrWhiteSpace(name) && u.userName != name.value
  }

  /** The name belongs to another account. */
  predicate NameTaken(users: seq<User>, u: User, name: string) {
    FindByName(users, name).Some? && users[FindByName(users, name).value].id != u.id
  }

  function TakenMessage(): string {
    "This username is already taken."
  }

  function ProfileFormatError(allowed: seq<string>): string {
    "Only formats allowed: " + Join(", ", allowed)
  }

  /** The picture part of a profile edit: what happens to files, the error
      shown if any, and the picture path the account ends with. */
  datatype PictureOutcome = PictureOutcome(effects: seq<Effect>, error: Option<string>, picture: Option<string>)

  function OldPictureRemoval(u: User): (e: seq<Effect>)
    ensures e != [] <==> !IsNullOrEmpty(u.profilePicture)
  {
    if IsNullOrEmpty(u.profilePicture) then [] else [DeleteFile(FileName(u.profilePicture.value))]
  }

  /** Extension check, then removal of the old picture, then size check. */
  function PictureSteps(u: User, picture: Option<Upload>, storedPath: string,
                        allowed: seq<string>, maxSizeMb: int): (o: PictureOutcome)
    ensures o.error.None? ==> o.picture == (if HasFile(picture) then Some(storedPath) else u.profilePicture)
    ensures o.error.Some? ==> o.picture == u.profilePicture
    ensures o.error.None? <==>
              !HasFile(picture)
              || (ImageExtension(picture.value) in allowed && picture.value.length <= MaxSizeBytes(maxSizeMb))
  {
    if !HasFile(picture) then PictureOutcome([], None, u.profilePicture)
    else if ImageExtension(picture.value) !in allowed then PictureOutcome([], Some(ProfileFormatError(allowed)), u.profilePicture)
    else if picture.value.length > MaxSizeBytes(maxSizeMb) then
      PictureOutcome(OldPictureRemoval(u), Some(SizeError(maxSizeMb)), u.profilePicture)
    else PictureOutcome(OldPictureRemoval(u) + [StoreFile(storedPath)], None, Some(storedPath))
  }

  /** An oversize replacement of an accepted type is refused after the old
      picture file has been removed, while the account still points at
      it. */
  lemma OversizeReplacementLosesOldPicture(u: User, picture: Upload, storedPath: string,
                                           allowed: seq<string>, maxSizeMb: int)
    requires picture.length > 0 && ImageExtension(picture) in allowed && picture.length > MaxSizeBytes(maxSizeMb)
    requires !IsNullOrEmpty(u.profilePicture)
    ensures var o := PictureSteps(u, Some(picture), storedPath, allowed, maxSizeMb);
            o.error.Some? && DeleteFile(FileName(u.profilePicture.value)) in o.effects
            && o.picture == u.profilePicture
  {
  }

  /** The account after a successful rename step. */
  function Renamed(u: User, name: Option<string>): User {
    if WantsRename(u, name) then u.(userName := name.value) else u
  }

  /** `EditProfile(model)` for the signed-in `currentUserId`.
      `setNameOk` and `updateOk` are the identity store's verdicts on
      the rename and on the final update. The rename is saved at once,
      before the picture is looked at. */
  method EditProfile(db: Db, currentUserId: string, form: ProfileForm, formValid: bool,
                     setNameOk: bool, updateOk: bool, storedPath: string,
                     allowed: seq<string>, maxSizeMb: int) returns (status: Status)
    modifies db`users, db`log
    ensures Conversations.UserIndex(old(db.users), currentUserId).None? ==> status == Redirect(SignInPage) && unchanged(db)
    ensures Conversations.UserIndex(old(db.users), currentUserId).Some? ==>
              var k := Conversations.UserIndex(old(db.users), currentUserId).value;
              var u := old(db.users)[k];
              var rename := WantsRename(u, form.nameUser);
              if !formValid then status == ShowForm("") && unchanged(db)
              else if rename && NameTaken(old(db.users), u, form.nameUser.value) then
                status == ShowForm(TakenMessage()) && unchanged(db)
              else if rename && !setNameOk then status == ShowForm("") && unchanged(db)
              else
                // the state once the rename, if any, is saved
                var users1 := if rename then old(db.users)[k := Renamed(u, form.nameUser)] else old(db.users);
                var log1 := if rename then old(db.log) + [Commit] else old(db.log);
                var o := PictureSteps(u, form.newPicture, storedPath, allowed, maxSizeMb);
                if o.error.Some? then
                  status == ShowForm(o.error.value) && db.users == users1 && db.log == log1 + o.effects
                else if !updateOk then
                  status == ShowForm("") && db.users == users1 && db.log == log1 + o.effects
                else
                  status == Redirect(CreatorHome)
                  && db.users == users1[k := Renamed(u, form.nameUser).(details := form.details, profilePicture := o.picture)]
                  && db.log == log1 + o.effects + [Commit, SignedIn(u.id)]
  {
    var idx := Conversations.UserIndex(db.users, currentUserId);
    if idx.None? {
      return Redirect(SignInPage);
    }
    var k := idx.value;
    var u := db.users[k];
    if !formValid {
      return ShowForm("");
    }
    if WantsRename(u, form.nameUser) {
      if NameTaken(db.users, u, form.nameUser.value) {
        return ShowForm(TakenMessage());
      }
      if !setNameOk {
        return ShowForm("");
      }
      db.users := db.users[k := u.(userName := form.nameUser.value)];
      db.log := db.log + [Commit];
    }
    status := SaveProfile(db, k, u, Renamed(u, form.nameUser), form, updateOk, storedPath, allowed, maxSizeMb);
  }

  /** The part of the profile edit after the rename: the picture steps,
      then the update of details and picture and the sign-in refresh. */
  method SaveProfile(db: Db, k: nat, u: User, u1: User, form: ProfileForm, updateOk: bool,
                     storedPath: string, allowed: seq<string>, maxSizeMb: int) returns (status: Status)
    requires k < |db.users|
    modifies db`users, db`log
    ensures var o := PictureSteps(u, form.newPicture, storedPath, allowed, maxSizeMb);
            if o.error.Some? then
              status == ShowForm(o.error.value) && db.users == old(db.users)
              && db.log == old(db.log) + o.effects
            else if !updateOk then
              status == ShowForm("") && db.users == old(db.users)
              && db.log == old(db.log) + o.effects
            else
              status == Redirect(CreatorHome)
              && db.users == old(db.users)[k := u1.(details := form.details, profilePicture := o.picture)]
              && db.log == old(db.log) + o.effects + [Commit, SignedIn(u.id)]
  {
    var o := PictureSteps(u, form.newPicture, storedPath, allowed, maxSizeMb);
    db.log := db.log + o.effects;
    if o.error.Some? {
      return ShowForm(o.error.value);
    }
    if !updateOk {
      return ShowForm("");
    }
    db.users := db.users[k := u1.(details := form.details, profilePicture := o.picture)];
    db.log := db.log + [Commit, SignedIn(u.id)];
    status := Redirect(CreatorHome);
  }

  /** A blank or unchanged name is never checked against other accounts:
      the rename step keeps the account as it is. */
  lemma BlankOrSameNameKept(u: User, name: Option<string>)
    requires IsNullOrWhiteSpace(name) || name == Some(u.userName)
    ensures Renamed(u, name) == u
  {
  }

  /** With ids and normalized names unique, as the identity store keeps
      them, after a rename the account's name is the requested one and no
      other account holds it (up to letter case). */
  lemma RenameGivesFreeName(users: seq<User>, k: nat, name: string)
    requires k < |users| && WantsRename(users[k], Some(name)) && !NameTaken(users, users[k], name)
    requires forall i :: 0 <= i < |users| && i != k ==> users[i].id != users[k].id
    requires forall i, j :: 0 <= i < j < |users| ==> ToUpper(users[i].userName) != ToUpper(users[j].userName)
    ensures Renamed(users[k], Some(name)).userName == name
    ensures forall i :: 0 <= i < |users| && i != k ==> ToUpper(users[i].userName) != ToUpper(name)
  {
  }
}
