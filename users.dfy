/**
 * User registration and the current-user view. The users collection is a sequence of
 * documents in insertion order, the `email sending` queue a sequence of jobs, and the
 * SHA-1 primitive a function handed in by the caller (its internals are not modelled).
 */
module Users {
  import opened Wrappers
  import opened Http

  /** A document of the users collection: the store-assigned id, the email, the SHA-1 of the password. */
  datatype UserDoc = UserDoc(id: string, email: string, password: string)

  /** The payload of a job on the welcome-mail queue. */
  datatype Job = Job(userId: string)

  /** The parsed JSON body of a registration request; a field that is missing is `None`. */
  datatype Body = Body(email: Option<string>, password: Option<string>)

  /**
   * One registration attempt: the request's body (absent when nothing was parsed) and,
   * beside it, the id the store's driver would assign on insert (not part of the request).
   */
  datatype Attempt = Attempt(body: Option<Body>, newId: string)

  /** The name of the queue the registration handler enqueues on. */
  const EmailQueueName := "email sending"

  const MissingEmail := "Missing email"
  const MissingPassword := "Missing password"
  const AlreadyExist := "Already exist"

  /** JavaScript truthiness of an optional string: `null`, `undefined` and `""` are falsy. */
  predicate Truthy(v: Option<string>)
  {
    v.Some? && v.value != ""
  }

  /** The body's email field, or None when the request has no body. */
  function EmailField(body: Option<Body>): Option<string>
  {
    if body.Some? then body.value.email else None
  }

  /** The body's password field, or None when the request has no body. */
  function PasswordField(body: Option<Body>): Option<string>
  {
    if body.Some? then body.value.password else None
  }

  /** Whether `findOne({ email })` finds a document. */
  predicate EmailTaken(users: seq<UserDoc>, email: string)
  {
    exists i :: 0 <= i < |users| && users[i].email == email
  }

  /** The number of documents holding the email. */
  function CountEmail(users: seq<UserDoc>, email: string): nat
  {
    if users == [] then 0
    else CountEmail(users[..|users| - 1], email) + (if users[|users| - 1].email == email then 1 else 0)
  }

  /** No two documents share an email. */
  ghost predicate UniqueEmails(users: seq<UserDoc>)
  {
    forall i, j :: 0 <= i < j < |users| ==> users[i].email != users[j].email
  }

  /** The submitted jobs pair one-to-one with the users, in the order the users were inserted, each naming its user's id. */
  ghost predicate JobsPairUsers(users: seq<UserDoc>, jobs: seq<Job>)
  {
    |jobs| == |users| && forall i :: 0 <= i < |users| ==> jobs[i].userId == users[i].id
  }

  /** The response of a registration request and the collection and queue it leaves. */
  datatype Registration = Registration(response: Response, users: seq<UserDoc>, jobs: seq<Job>)

  /**
   * postNew as a function of the collection and the queue: the three checks in order,
   * then one insert of `{ email, sha1(password) }` and one job `{ userId }`.
   */
  function Register(users: seq<UserDoc>, jobs: seq<Job>, body: Option<Body>, sha1: string -> string, newId: string): (r: Registration)
    ensures users <= r.users && jobs <= r.jobs
    ensures |r.users| - |users| == |r.jobs| - |jobs| <= 1
  {
    var email := EmailField(body);
    var password := PasswordField(body);
    if !Truthy(email) then
      Registration(Response(400, ErrorBody(MissingEmail)), users, jobs)
    else if !Truthy(password) then
      Registration(Response(400, ErrorBody(MissingPassword)), users, jobs)
    else if EmailTaken(users, email.value) then
      Registration(Response(400, ErrorBody(AlreadyExist)), users, jobs)
    else
      Registration(Response(201, UserBody(email.value, newId)),
                   users + [UserDoc(newId, email.value, sha1(password.value))],
                   jobs + [Job(newId)])
  }

  /**
   * Which branch answers, and what each leaves behind: the email check comes first,
   * then the password, then the duplicate; an error changes neither the collection nor
   * the queue; a success adds exactly one document (holding the hash, not the password)
   * and exactly one job for the new id, and echoes the email and that id.
   */
  lemma RegisterOutcome(users: seq<UserDoc>, jobs: seq<Job>, body: Option<Body>, sha1: string -> string, newId: string)
    ensures var r := Register(users, jobs, body, sha1, newId);
      var email, password := EmailField(body), PasswordField(body);
      && (r.response == Response(400, ErrorBody(MissingEmail)) <==>
            !Truthy(email))
      && (r.response == Response(400, ErrorBody(MissingPassword)) <==>
            Truthy(email) && !Truthy(password))
      && (r.response == Response(400, ErrorBody(AlreadyExist)) <==>
            Truthy(email) && Truthy(password) && EmailTaken(users, email.value))
      && (r.response.status == 201 <==>
            Truthy(email) && Truthy(password) && !EmailTaken(users, email.value))
      && (r.response.status != 201 ==> r.users == users && r.jobs == jobs)
      && (r.response.status == 201 ==>
            && r.users == users + [UserDoc(newId, email.value, sha1(password.value))]
            && r.jobs == jobs + [Job(newId)]
            && r.response.body == UserBody(email.value, newId))
  {
  }

  /** Appending a document adds one to the count of its own email and nothing to the others. */
  lemma CountEmailAppend(users: seq<UserDoc>, doc: UserDoc, email: string)
    ensures CountEmail(users + [doc], email) == CountEmail(users, email) + (if doc.email == email then 1 else 0)
  {
  }

  /** No document with the email means a count of zero. */
  lemma {:induction false} CountEmailZero(users: seq<UserDoc>, email: string)
    requires !EmailTaken(users, email)
    ensures CountEmail(users, email) == 0
    decreases |users|
  {
    if users != [] {
      var init := users[..|users| - 1];
      assert !EmailTaken(init, email) by {
        forall i | 0 <= i < |init| ensures init[i].email != email {
          assert init[i] == users[i];
        }
      }
      CountEmailZero(init, email);
    }
  }

  /** A successful registration leaves exactly one document with the registered email. */
  lemma RegisterLeavesOneUserWithEmail(users: seq<UserDoc>, jobs: seq<Job>, body: Option<Body>, sha1: string -> string, newId: string)
    requires Register(users, jobs, body, sha1, newId).response.status == 201
    ensures CountEmail(Register(users, jobs, body, sha1, newId).users, EmailField(body).value) == 1
  {
    var email := EmailField(body).value;
    CountEmailZero(users, email);
    CountEmailAppend(users, UserDoc(newId, email, sha1(PasswordField(body).value)), email);
  }

  /** Registration keeps emails unique and keeps one job per user, whichever branch answers. */
  lemma RegisterPreservesInvariants(users: seq<UserDoc>, jobs: seq<Job>, body: Option<Body>, sha1: string -> string, newId: string)
    requires UniqueEmails(users) && JobsPairUsers(users, jobs)
    ensures UniqueEmails(Register(users, jobs, body, sha1, newId).users)
    ensures JobsPairUsers(Register(users, jobs, body, sha1, newId).users, Register(users, jobs, body, sha1, newId).jobs)
  {
  }

  /** The state after a series of registrations, each handled as one atomic step. */
  function RegisterAll(users: seq<UserDoc>, jobs: seq<Job>, attempts: seq<Attempt>, sha1: string -> string): (seq<UserDoc>, seq<Job>)
    decreases |attempts|
  {
    if attempts == [] then (users, jobs)
    else
      var r := Register(users, jobs, attempts[0].body, sha1, attempts[0].newId);
      RegisterAll(r.users, r.jobs, attempts[1..], sha1)
  }

  /** However many registrations run, emails stay unique and every user keeps exactly one welcome job. */
  lemma {:induction false} RegisterAllPreservesInvariants(users: seq<UserDoc>, jobs: seq<Job>, attempts: seq<Attempt>, sha1: string -> string)
    requires UniqueEmails(users) && JobsPairUsers(users, jobs)
    ensures UniqueEmails(RegisterAll(users, jobs, attempts, sha1).0)
    ensures JobsPairUsers(RegisterAll(users, jobs, attempts, sha1).0, RegisterAll(users, jobs, attempts, sha1).1)
    decreases |attempts|
  {
    if attempts != [] {
      var r := Register(users, jobs, attempts[0].body, sha1, attempts[0].newId);
      RegisterPreservesInvariants(users, jobs, attempts[0].body, sha1, attempts[0].newId);
      RegisterAllPreservesInvariants(r.users, r.jobs, attempts[1..], sha1);
    }
  }

  /** getMe: the request's user projected to its email and id. */
  function GetMe(user: UserDoc): (r: Response)
    ensures r.status == 200 && r.body.UserBody?
    ensures r.body.email == user.email && r.body.id == user.id
  {
    Response(200, UserBody(user.email, user.id))
  }

  /** Right after a registration, the new user's profile is exactly what the registration answered, with status 200. */
  lemma ProfileMatchesRegistration(users: seq<UserDoc>, jobs: seq<Job>, body: Option<Body>, sha1: string -> string, newId: string)
    requires Register(users, jobs, body, sha1, newId).response.status == 201
    ensures var r := Register(users, jobs, body, sha1, newId);
      |r.users| > 0 && GetMe(r.users[|r.users| - 1]) == Response(200, r.response.body)
      && r.response.body.id == r.jobs[|r.jobs| - 1].userId
  {
  }

  /** The users collection as the handler sees it through the driver. */
  class UsersCollection {
    var docs: seq<UserDoc>

    constructor (initial: seq<UserDoc>)
      ensures docs == initial
    {
      docs := initial;
    }

    /** findOne({ email }): some document with that email, or null. */
    method FindOne(email: string) returns (found: Option<UserDoc>)
      ensures found.Some? <==> EmailTaken(docs, email)
      ensures found.Some? ==> found.value.email == email && found.value in docs
    {
      if EmailTaken(docs, email) {
        var i :| 0 <= i < |docs| && docs[i].email == email;
        found := Some(docs[i]);
      } else {
        found := None;
      }
    }

    /** insertOne({ email, password }): appends the document under the id the store assigns, and returns that id. */
    method InsertOne(email: string, password: string, newId: string) returns (insertedId: string)
      modifies this
      ensures docs == old(docs) + [UserDoc(newId, email, password)]
      ensures insertedId == newId
    {
      docs := docs + [UserDoc(newId, email, password)];
      insertedId := newId;
    }
  }

  /**
   * A handle on a named job queue. `jobs` is the sequence of jobs submitted through this
   * handle, not the queue's contents: the queue itself lives in Redis, may already hold
   * jobs, and its consumers remove them; only submission is modelled.
   */
  class JobQueue {
    const name: string
    var jobs: seq<Job>

    /** A new handle has submitted nothing yet. */
    constructor (name: string)
      ensures this.name == name && jobs == []
    {
      this.name := name;
      jobs := [];
    }

    /** add(payload): appends the job. */
    method Add(job: Job)
      modifies this
      ensures jobs == old(jobs) + [job]
    {
      jobs := jobs + [job];
    }
  }

  /** postNew: the validation cascade, then the insert and the enqueue, as one atomic request. */
  method PostNew(users: UsersCollection, queue: JobQueue, body: Option<Body>, sha1: string -> string, newId: string)
    returns (response: Response)
    requires queue.name == EmailQueueName
    modifies users, queue
    ensures Registration(response, users.docs, queue.jobs) == Register(old(users.docs), old(queue.jobs), body, sha1, newId)
  {
    var email := EmailField(body);
    var password := PasswordField(body);
    if !Truthy(email) {
      return Response(400, ErrorBody(MissingEmail));
    }
    if !Truthy(password) {
      return Response(400, ErrorBody(MissingPassword));
    }
    var user := users.FindOne(email.value);
    if user.Some? {
      return Response(400, ErrorBody(AlreadyExist));
    }
    var userId := users.InsertOne(email.value, sha1(password.value), newId);
    queue.Add(Job(userId));
    response := Response(201, UserBody(email.value, userId));
  }
}
