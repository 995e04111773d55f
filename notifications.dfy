/** The notification settings tab: a fixed list of channels, each switched
    on or off by its toggle. */
module Notifications {

  /** A notification channel; its icon is presentation only. */
  datatype Setting = Setting(id: string, title: string, description: string, enabled: bool)

  /** The four channels the tab starts with. */
  const InitialSettings: seq<Setting> := [
    Setting("email", "Notificações por Email", "Receba atualizações importantes por email", true),
    Setting("push", "Notificações Push", "Receba alertas instantâneos no navegador", false),
    Setting("sms", "Notificações SMS", "Receba lembretes por mensagem de texto", true),
    Setting("calendar", "Lembretes de Agenda", "Notificações sobre consultas e compromissos", true)
  ]

  /** toggleSetting: every setting with the id has `enabled` negated. */
  function ToggleSetting(settings: seq<Setting>, id: string): (r: seq<Setting>) {
    seq(|settings|, i requires 0 <= i < |settings| =>
      if settings[i].id == id then settings[i].(enabled := !settings[i].enabled) else settings[i])
  }

  /** The list keeps its length and order; a setting's id, title and
      description never change, and its switch flips exactly when its id
      is the toggled one. */
  lemma ToggleSettingEffect(settings: seq<Setting>, id: string)
    ensures var r := ToggleSetting(settings, id);
      |r| == |settings|
      && forall i :: 0 <= i < |settings| ==>
        r[i].id == settings[i].id && r[i].title == settings[i].title
        && r[i].description == settings[i].description
        && (r[i].enabled != settings[i].enabled <==> settings[i].id == id)
  {
  }

  /** Toggling the same id twice restores the settings. */
  lemma ToggleTwice(settings: seq<Setting>, id: string)
    ensures ToggleSetting(ToggleSetting(settings, id), id) == settings
  {
    var r := ToggleSetting(ToggleSetting(settings, id), id);
    assert forall i :: 0 <= i < |settings| ==> r[i] == settings[i];
  }

  /** Toggling an id no setting has changes nothing. */
  lemma ToggleUnknown(settings: seq<Setting>, id: string)
    requires forall i :: 0 <= i < |settings| ==> settings[i].id != id
    ensures ToggleSetting(settings, id) == settings
  {
  }

  /** Toggles of two ids commute. */
  lemma ToggleCommutes(settings: seq<Setting>, a: string, b: string)
    ensures ToggleSetting(ToggleSetting(settings, a), b) == ToggleSetting(ToggleSetting(settings, b), a)
  {
  }

  /** In the initial list the ids are distinct, so a toggle of "push" turns
      on that one channel and no other. */
  lemma TogglePushInitially()
    ensures ToggleSetting(InitialSettings, "push")
      == InitialSettings[1 := InitialSettings[1].(enabled := true)]
  {
    assert "email" != "push" && "sms" != "push" && "calendar" != "push" by {
      assert "email"[0] != 'p' && "sms"[0] != 'p' && "calendar"[0] != 'p';
    }
  }
}
