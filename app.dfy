/**
 * The routes of app.py that change state or check the admin session: the
 * two-state admin gate (`admin_logged_in` unset / set), login and logout,
 * the guarded admin routes, inquiry submission, product creation and
 * product deletion. HTTP responses are reduced to which page or redirect
 * the route returns.
 */
module App {
  import opened Seqs
  import opened Schema
  import opened Catalog
  import opened Store

  /** A visitor's session; only the `admin_logged_in` key is modelled. */
  class Session {
    var adminLoggedIn: bool

    /** A new visitor is anonymous. */
    constructor ()
      ensures !adminLoggedIn
    {
      adminLoggedIn := false;
    }
  }

  datatype Response =
    | RedirectHome
    | RedirectLogin
    | RedirectDashboard
    | InvalidCredentials
    | DashboardPage(totalCategories: nat, totalProducts: nat, totalInquiries: nat)
    | InquiriesPage(inquiries: seq<Inquiry>)
    | AddProductFormPage(categories: seq<Category>)

  function Named(username: string): Admin -> bool { (a: Admin) => a.username == username }

  /**
   * The login decision: the admin row `SELECT ... WHERE username` fetches
   * exists and `checkPassword` (standing for `check_password_hash`) accepts
   * the submitted password against its stored hash.
   */
  function LoginAccepted(admins: seq<Admin>, username: string, password: string,
                         checkPassword: (string, string) -> bool): (r: bool)
    ensures r ==> exists a :: a in admins && a.username == username && checkPassword(a.passwordHash, password)
    ensures (forall a :: a in admins ==> a.username != username) ==> !r
  {
    match First(admins, Named(username))
    case None => false
    case Some(a) => checkPassword(a.passwordHash, password)
  }

  /** With unique usernames, login succeeds iff some admin has that username and the password checks. */
  lemma LoginAcceptedIff(admins: seq<Admin>, username: string, password: string,
                         checkPassword: (string, string) -> bool)
    requires UniqueUsernames(admins)
    ensures LoginAccepted(admins, username, password, checkPassword)
        <==> exists a :: a in admins && a.username == username && checkPassword(a.passwordHash, password)
  {
  }

  /** `admin_login` (POST): sets the flag when the credentials check, otherwise answers "Invalid Credentials". */
  method AdminLogin(db: Database, session: Session, username: string, password: string,
                    checkPassword: (string, string) -> bool)
    returns (r: Response)
    modifies session
    ensures LoginAccepted(db.admins, username, password, checkPassword) ==>
      session.adminLoggedIn && r == RedirectDashboard
    ensures !LoginAccepted(db.admins, username, password, checkPassword) ==>
      session.adminLoggedIn == old(session.adminLoggedIn) && r == InvalidCredentials
  {
    var admin := First(db.admins, Named(username));
    if admin.Some? && checkPassword(admin.value.passwordHash, password) {
      session.adminLoggedIn := true;
      r := RedirectDashboard;
    } else {
      r := InvalidCredentials;
    }
  }

  /** `admin_logout`: the flag is unset afterwards, whatever it was. */
  method AdminLogout(session: Session) returns (r: Response)
    modifies session
    ensures !session.adminLoggedIn && r == RedirectHome
  {
    session.adminLoggedIn := false;
    r := RedirectHome;
  }

  /** `admin_dashboard`: guarded; the three table counts. */
  function AdminDashboard(loggedIn: bool, t: Tables): (r: Response)
    ensures !loggedIn ==> r == RedirectLogin
    ensures loggedIn ==> (r.DashboardPage? && r.totalCategories == |t.categories|
                          && r.totalProducts == |t.products| && r.totalInquiries == |t.inquiries|)
  {
    if !loggedIn then RedirectLogin
    else DashboardPage(|t.categories|, |t.products|, |t.inquiries|)
  }

  /** `view_inquiries`: guarded; every inquiry row (the `created_at` order is not modelled). */
  function ViewInquiries(loggedIn: bool, t: Tables): (r: Response)
    ensures !loggedIn ==> r == RedirectLogin
    ensures loggedIn ==> r.InquiriesPage? && multiset(r.inquiries) == multiset(t.inquiries)
  {
    if !loggedIn then RedirectLogin else InquiriesPage(t.inquiries)
  }

  /** `add_product` (GET): guarded; the form lists the categories. */
  function AddProductForm(loggedIn: bool, t: Tables): (r: Response)
    ensures !loggedIn ==> r == RedirectLogin
    ensures loggedIn ==> r == AddProductFormPage(t.categories)
  {
    if !loggedIn then RedirectLogin else AddProductFormPage(t.categories)
  }

  /** `inquiry` (POST): one inquiry row with the path's product id and the five form fields. */
  method SubmitInquiry(db: Database, productId: int, name: string, email: string,
                       country: string, quantity: string, message: string)
    returns (r: Response)
    requires db.Valid()
    modifies db
    ensures db.Valid()
    ensures db.Snapshot()
         == InquiryTables(old(db.Snapshot()), Inquiry(productId, name, email, country, quantity, message))
    ensures r == RedirectHome
  {
    db.InsertInquiry(Inquiry(productId, name, email, country, quantity, message));
    r := RedirectHome;
  }

  /**
   * `add_product` (POST): without the flag, a redirect to login and no
   * change; with it, the product row and its fanned-out child rows.
   */
  method AddProduct(db: Database, session: Session, form: ProductForm, files: seq<Upload>,
                    sanitize: string -> string)
    returns (r: Response)
    requires db.Valid()
    modifies db
    ensures db.Valid()
    ensures !session.adminLoggedIn ==> (r == RedirectLogin && db.Snapshot() == old(db.Snapshot()))
    ensures session.adminLoggedIn ==>
      (r == RedirectDashboard && db.Snapshot() == AddProductTables(old(db.Snapshot()), form, files, sanitize))
  {
    if !session.adminLoggedIn {
      return RedirectLogin;
    }
    var pid := db.InsertProduct(form.categoryId, form.name, form.description, form.packaging, form.moq);
    db.InsertSpecifications(pid, form.specNames, form.specValues);
    db.InsertPackaging(pid, form.packTypes, form.weights, form.container20, form.container40);
    db.InsertImages(pid, files, sanitize);
    r := RedirectDashboard;
  }

  /** `delete_product`: without the flag, a redirect to login and no change; with it, the delete. */
  method DeleteProduct(db: Database, session: Session, id: int) returns (r: Response)
    requires db.Valid()
    modifies db
    ensures db.Valid()
    ensures !session.adminLoggedIn ==> (r == RedirectLogin && db.Snapshot() == old(db.Snapshot()))
    ensures session.adminLoggedIn ==>
      (r == RedirectDashboard && db.Snapshot() == DeleteProductTables(old(db.Snapshot()), id))
  {
    if !session.adminLoggedIn {
      return RedirectLogin;
    }
    db.DeleteProduct(id);
    r := RedirectDashboard;
  }

  /**
   * A visitor walking through the gate: anonymous routes redirect, a wrong
   * password or an unknown user is refused, the right one opens the admin
   * pages, and logout (twice) closes them again.
   */
  method AdminGateWalkthrough(db: Database, checkPassword: (string, string) -> bool)
    requires db.Valid() && db.admins == [Admin(1, "admin", "stored-hash")]
    requires checkPassword("stored-hash", "secret") && !checkPassword("stored-hash", "guess")
    modifies db
  {
    var session := new Session();
    assert AdminDashboard(session.adminLoggedIn, db.Snapshot()) == RedirectLogin;
    var r := AdminLogin(db, session, "admin", "guess", checkPassword);
    assert r == InvalidCredentials && !session.adminLoggedIn;
    r := AdminLogin(db, session, "root", "secret", checkPassword);
    assert r == InvalidCredentials && !session.adminLoggedIn;
    r := AdminLogin(db, session, "admin", "secret", checkPassword);
    assert r == RedirectDashboard && session.adminLoggedIn;
    r := AdminLogout(session);
    r := AdminLogout(session);
    assert !session.adminLoggedIn;
    var before := db.Snapshot();
    r := DeleteProduct(db, session, 1);
    assert r == RedirectLogin && db.Snapshot() == before;
  }
}
