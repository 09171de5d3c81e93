/** The seed dataset installed on first run: four users, two elderly
    profiles and five tasks scheduled relative to the start of today.

    Scheduled times are opaque: `atHour(h)` stands for the ISO text of the
    instant `h` hours after the start of the current day.
 */
module Constants {
  import opened Types

  const AdminUser := User(
    "admin_user", "Administrador", "admin", "admin052905",
    "https://api.dicebear.com/7.x/avataaars/svg?seed=Admin&backgroundColor=b6e3f4",
    Admin, "bg-slate-800 text-white")

  const MockUsers: seq<User> := [
    AdminUser,
    User("u1", "Ana Silva", "ana@example.com", "123",
         "https://api.dicebear.com/7.x/avataaars/svg?seed=Ana&backgroundColor=c0aede",
         Admin, "bg-blue-100 text-blue-800"),
    User("u2", "Carlos Santos", "carlos@example.com", "123",
         "https://api.dicebear.com/7.x/avataaars/svg?seed=Carlos&backgroundColor=d1d4f9",
         Member, "bg-emerald-100 text-emerald-800"),
    User("u3", "Beatriz Costa", "bia@example.com", "123",
         "https://api.dicebear.com/7.x/avataaars/svg?seed=Bia&backgroundColor=ffdfbf",
         Member, "bg-purple-100 text-purple-800")
  ]

  const MockElderly: seq<ElderlyProfile> := [
    ElderlyProfile("e1", "Vô Roberto", Male,
      "https://api.dicebear.com/7.x/avataaars/svg?seed=Roberto&backgroundColor=b6e3f4",
      ["Hipertensão", "Diabetes Tipo 2"],
      "Precisa de ajuda para caminhar longas distâncias."),
    ElderlyProfile("e2", "Vó Maria", Female,
      "https://api.dicebear.com/7.x/avataaars/svg?seed=Maria&backgroundColor=b6e3f4",
      ["Alzheimer (Leve)"],
      "Gosta de ouvir música antiga durante o almoço.")
  ]

  function InitialTasks(atHour: nat -> string): seq<Task> {
    [ Task("t1", "Remédio da Pressão", "Losartana 50mg - Checar se tomou com água.",
           "e1", Some("u1"), "u1", atHour(8), None, Completed, High, Medication),
      Task("t2", "Café da Manhã", "Evitar muito açúcar. Frutas e aveia.",
           "e2", None, "u1", atHour(9), None, Pending, Medium, Meal),
      Task("t3", "Banho Assistido", "Cuidado com o piso molhado. Usar cadeira de banho.",
           "e2", None, "u1", atHour(10), None, Pending, High, Hygiene),
      Task("t4", "Caminhada no Parque", "15 minutos apenas se estiver sol.",
           "e1", Some("u2"), "u1", atHour(16), None, Pending, Low, Activity),
      Task("t5", "Insulina", "Verificar glicemia antes.",
           "e1", None, "u1", atHour(20), None, Pending, Critical, Medication) ]
  }

  /** The seed user ids are pairwise distinct, and so are their emails. */
  lemma SeedUsersDistinct()
    ensures forall i, j :: 0 <= i < j < |MockUsers| ==> MockUsers[i].id != MockUsers[j].id
    ensures forall i, j :: 0 <= i < j < |MockUsers| ==> MockUsers[i].email != MockUsers[j].email
  {
  }

  /** `admin_user` is the first seed user, an ADMIN whose email is `admin`. */
  lemma SeedAdmin()
    ensures |MockUsers| == 4 && MockUsers[0] == AdminUser
    ensures AdminUser.id == "admin_user" && AdminUser.role == Admin && AdminUser.email == "admin"
  {
  }

  /** The seed task ids are pairwise distinct. */
  lemma SeedTasksDistinct(atHour: nat -> string)
    ensures var ts := InitialTasks(atHour);
      |ts| == 5 && forall i, j :: 0 <= i < j < |ts| ==> ts[i].id != ts[j].id
  {
  }

  /** Every seed task refers to a seed profile, is unassigned or assigned to a
      seed user, and was created by `u1`. */
  lemma SeedTasksReferToSeed(atHour: nat -> string)
    ensures forall t :: t in InitialTasks(atHour) ==>
      && (exists e :: e in MockElderly && e.id == t.elderlyId)
      && (t.assignedToId.None? || exists u :: u in MockUsers && Some(u.id) == t.assignedToId)
      && t.createdBy == "u1"
  {
    var ts := InitialTasks(atHour);
    assert MockElderly[0].id == "e1" && MockElderly[1].id == "e2";
    assert MockUsers[1].id == "u1" && MockUsers[2].id == "u2";
    assert forall t :: t in ts ==> t == ts[0] || t == ts[1] || t == ts[2] || t == ts[3] || t == ts[4];
  }

  /** Only `t1` is seeded COMPLETED, and it carries no completion time: the
      seed does not satisfy "completedAt present iff COMPLETED". */
  lemma SeedCompletedTask(atHour: nat -> string)
    ensures var ts := InitialTasks(atHour);
      && ts[0].id == "t1" && ts[0].status == Completed && ts[0].completedAt.None?
      && forall i :: 0 < i < |ts| ==> ts[i].status == Pending
  {
  }
}
